/** The buffer-to-buffer dependency graph that a routing table induces, and what the
    depth-first search over it detects (routing-table.c). */
module Dependencies {
  import opened Topology
  import opened Sequences
  import opened Routes

  /** The vertices are the positions of `buffers`, the list of all output buffers in
      the order the search visits them. */
  datatype Graph = Graph(net: Net, table: Table, buffers: seq<nat>)

  ghost predicate IsGraph(g: Graph) {
    && LinkedTable(g.net, g.table)
    && Distinct(g.buffers)
    && Below(g.buffers, |g.net.links|)
    && forall l :: 0 <= l < |g.net.links| ==> g.net.links[l].src < |g.table| && g.net.links[l].dst < |g.table|
  }

  /** A message to `j` that occupies buffer `l` continues into buffer `m`. */
  ghost predicate Continues(net: Net, t: Table, l: nat, m: nat, j: nat)
    requires LinkedTable(net, t) && l < |net.links| && j < |t|
    requires net.links[l].src < |t|
  {
    var e := t[net.links[l].src][j];
    e.out == l && 0 <= e.next < |t| && t[e.next][j].out == m
  }

  /** Some message in buffer `l` continues into buffer `m`. */
  ghost predicate Depends(net: Net, t: Table, l: nat, m: nat)
    requires LinkedTable(net, t) && l < |net.links|
    requires net.links[l].src < |t|
  {
    exists j: nat :: j < |t| && Continues(net, t, l, m, j)
  }

  ghost predicate Edge(g: Graph, p: nat, q: nat)
    requires IsGraph(g)
  {
    && p < |g.buffers| && q < |g.buffers|
    && Depends(g.net, g.table, g.buffers[p], g.buffers[q])
  }

  /** The message whose destination is `j` makes `q` a successor of `p`. */
  ghost predicate Leads(g: Graph, p: nat, q: nat, j: nat)
    requires IsGraph(g)
  {
    && p < |g.buffers| && q < |g.buffers| && j < |g.table|
    && Continues(g.net, g.table, g.buffers[p], g.buffers[q], j)
  }

  ghost predicate Path(g: Graph, s: seq<nat>)
    requires IsGraph(g)
  {
    forall i :: 0 <= i < |s| - 1 ==> Edge(g, s[i], s[i + 1])
  }

  /** A path of at least one edge leads from `p` to `q`. */
  ghost predicate PathFrom(g: Graph, s: seq<nat>, p: nat, q: nat)
    requires IsGraph(g)
  {
    |s| >= 2 && Path(g, s) && s[0] == p && s[|s| - 1] == q
  }

  ghost predicate Reaches(g: Graph, p: nat, q: nat)
    requires IsGraph(g)
  {
    exists s :: PathFrom(g, s, p, q)
  }

  ghost predicate Cyclic(g: Graph)
    requires IsGraph(g)
  {
    exists p :: Reaches(g, p, p)
  }

  /** A vertex that depends on itself and can be reached from an earlier one. */
  ghost predicate LateSelfLoop(g: Graph, r: nat, u: nat)
    requires IsGraph(g)
  {
    r < u && Edge(g, u, u) && Reaches(g, r, u)
  }

  ghost predicate MutuallyReachable(g: Graph, u: nat, v: nat)
    requires IsGraph(g)
  {
    u != v && Reaches(g, u, v) && Reaches(g, v, u)
  }

  /** What the search detects. A vertex that depends on itself is its own parent when
      the search starts there, and then the test on the parent overlooks the loop. */
  ghost predicate Detected(g: Graph)
    requires IsGraph(g)
  {
    || (exists u, v :: MutuallyReachable(g, u, v))
    || (exists r, u :: LateSelfLoop(g, r, u))
  }

  lemma JoinPaths(g: Graph, p: nat, q: nat, r: nat)
    requires IsGraph(g) && Reaches(g, p, q) && Reaches(g, q, r)
    ensures Reaches(g, p, r)
  {
    var a :| PathFrom(g, a, p, q);
    var b :| PathFrom(g, b, q, r);
    var c := a + b[1..];
    forall i | 0 <= i < |c| - 1
      ensures Edge(g, c[i], c[i + 1])
    {
      if i < |a| - 1 {
        assert Edge(g, a[i], a[i + 1]);
      } else {
        assert Edge(g, b[i - (|a| - 1)], b[i - (|a| - 1) + 1]);
      }
    }
    assert PathFrom(g, c, p, r);
  }

  lemma EdgeReaches(g: Graph, p: nat, q: nat)
    requires IsGraph(g) && Edge(g, p, q)
    ensures Reaches(g, p, q)
  {
    assert PathFrom(g, [p, q], p, q);
  }

  /** Everything detected is a cycle. */
  lemma DetectedIsCyclic(g: Graph)
    requires IsGraph(g) && Detected(g)
    ensures Cyclic(g)
  {
    if u, v :| MutuallyReachable(g, u, v) {
      JoinPaths(g, u, v, u);
    } else {
      var r, u :| LateSelfLoop(g, r, u);
      EdgeReaches(g, u, u);
    }
  }

  /** Without a vertex that depends on itself, every cycle is detected. */
  lemma CyclicIsDetected(g: Graph)
    requires IsGraph(g) && Cyclic(g)
    requires forall p :: 0 <= p < |g.buffers| ==> !Edge(g, p, p)
    ensures Detected(g)
  {
    var p: nat :| Reaches(g, p, p);
    var s :| PathFrom(g, s, p, p);
    assert Edge(g, s[0], s[0 + 1]);
    var q := s[1];
    assert q != p;
    EdgeReaches(g, p, q);
    assert PathFrom(g, s[1..], q, p) by {
      forall i | 0 <= i < |s[1..]| - 1
        ensures Edge(g, s[1..][i], s[1..][i + 1])
      {
        assert Edge(g, s[i + 1], s[i + 1 + 1]);
      }
    }
    assert MutuallyReachable(g, p, q);
  }

  /** A buffer depends on itself only if its link leads back to its own node. */
  lemma NoSelfDependency(g: Graph, p: nat)
    requires IsGraph(g) && NoSelfLinks(g.net) && p < |g.buffers|
    ensures !Edge(g, p, p)
  {
    var l := g.buffers[p];
    var u := g.net.links[l].src;
    forall j: nat | j < |g.table|
      ensures !Continues(g.net, g.table, l, l, j)
    {
      var e := g.table[u][j];
      assert Linked(g.net, u, e);
      if 0 <= e.next < |g.table| {
        assert Linked(g.net, e.next, g.table[e.next][j]);
      }
    }
  }

  /** Every cycle is detected, or consists of one vertex that depends on itself. */
  lemma UndetectedCycles(g: Graph)
    requires IsGraph(g)
    ensures Cyclic(g) <==> Detected(g) || exists p :: Edge(g, p, p)
  {
    if p: nat :| Edge(g, p, p) {
      EdgeReaches(g, p, p);
    } else if Cyclic(g) {
      CyclicIsDetected(g);
    }
    if Detected(g) {
      DetectedIsCyclic(g);
    }
  }

  // ---- The state of the search ----

  datatype Color = White | Gray | Black

  /** A vertex that depends on itself was not reachable from an earlier one. */
  ghost predicate EarlyLoop(g: Graph, p: nat)
    requires IsGraph(g)
  {
    Edge(g, p, p) ==> forall r :: !LateSelfLoop(g, r, p)
  }

  /** The finished vertices, in the order they turned black: each depends only on
      itself or on vertices finished before it. */
  ghost predicate Finished(g: Graph, done: seq<nat>)
    requires IsGraph(g)
  {
    && Distinct(done)
    && Below(done, |g.buffers|)
    && (forall i :: 0 <= i < |done| ==> FinishedAt(g, done, i))
  }

  ghost predicate FinishedAt(g: Graph, done: seq<nat>, i: nat)
    requires IsGraph(g) && i < |done|
  {
    && EarlyLoop(g, done[i])
    && (forall q :: Edge(g, done[i], q) && q != done[i] ==> q in done[..i])
  }

  lemma FinishOne(g: Graph, done: seq<nat>, p: nat)
    requires IsGraph(g) && Finished(g, done) && p < |g.buffers| && p !in done && EarlyLoop(g, p)
    requires forall q :: Edge(g, p, q) && q != p ==> q in done
    ensures Finished(g, done + [p])
  {
    var d := done + [p];
    forall i | 0 <= i < |d|
      ensures FinishedAt(g, d, i)
    {
      if i < |done| {
        assert FinishedAt(g, done, i);
        assert d[..i] == done[..i];
      } else {
        assert d[..i] == done;
      }
    }
  }

  /** Paths only go back in the finishing order. */
  lemma {:induction false} FinishedPath(g: Graph, done: seq<nat>, s: seq<nat>, i: nat) returns (k: nat)
    requires IsGraph(g) && Finished(g, done) && Path(g, s) && |s| > 0
    requires i < |done| && done[i] == s[0]
    ensures k <= i && done[k] == s[|s| - 1]
    decreases |s|
  {
    k := i;
    if |s| > 1 {
      assert Edge(g, s[0], s[0 + 1]);
      assert FinishedAt(g, done, i);
      var j := i;
      if s[1] != s[0] {
        j :| 0 <= j < i && done[..i][j] == s[1];
      }
      assert Path(g, s[1..]) by {
        forall x | 0 <= x < |s[1..]| - 1
          ensures Edge(g, s[1..][x], s[1..][x + 1])
        {
          assert Edge(g, s[x + 1], s[x + 1 + 1]);
        }
      }
      k := FinishedPath(g, done, s[1..], j);
    }
  }

  lemma FinishedReaches(g: Graph, done: seq<nat>, i: nat, q: nat) returns (k: nat)
    requires IsGraph(g) && Finished(g, done) && i < |done| && Reaches(g, done[i], q)
    ensures k <= i && done[k] == q
  {
    var s :| PathFrom(g, s, done[i], q);
    k := FinishedPath(g, done, s, i);
  }

  /** When every vertex has finished, there was nothing to detect. */
  lemma AllFinished(g: Graph, done: seq<nat>)
    requires IsGraph(g) && Finished(g, done)
    requires forall p: nat :: p < |g.buffers| ==> p in done
    ensures !Detected(g)
  {
    forall u: nat, v: nat
      ensures !MutuallyReachable(g, u, v)
    {
      if Reaches(g, u, v) && Reaches(g, v, u) {
        ReachesBelow(g, u, v);
        assert u in done;
        var i :| 0 <= i < |done| && done[i] == u;
        var k := FinishedReaches(g, done, i, v);
        var n := FinishedReaches(g, done, k, u);
      }
    }
    forall r: nat, u: nat
      ensures !LateSelfLoop(g, r, u)
    {
      if u < |g.buffers| {
        assert u in done;
        var i :| 0 <= i < |done| && done[i] == u;
        assert FinishedAt(g, done, i);
      }
    }
  }

  lemma ReachesBelow(g: Graph, p: nat, q: nat)
    requires IsGraph(g) && Reaches(g, p, q)
    ensures p < |g.buffers| && q < |g.buffers|
  {
    var s :| PathFrom(g, s, p, q);
    assert Edge(g, s[0], s[0 + 1]);
    assert Edge(g, s[|s| - 2], s[|s| - 2 + 1]);
  }

  // ---- The list of buffers that the search runs over ----

  /** All output buffers of the first `k` nodes, node by node. */
  function BufferOrder(net: Net, k: nat): (s: seq<nat>)
    ensures forall l: nat :: l in s <==> l < |net.links| && net.links[l].src < k
    ensures forall i :: 0 <= i < |s| ==> s[i] < |net.links| && net.links[s[i]].src < k
    ensures Distinct(s)
  {
    if k == 0 then [] else BufferOrder(net, k - 1) + Outputs(net, k - 1)
  }

  function SearchGraph(net: Net, t: Table): (g: Graph) {
    Graph(net, t, BufferOrder(net, |net.nodes|))
  }

  lemma SearchGraphIsGraph(net: Net, t: Table)
    requires WellFormed(net) && LinkedTable(net, t)
    ensures IsGraph(SearchGraph(net, t))
  {
    forall l | 0 <= l < |net.links|
      ensures net.links[l].src < |t| && net.links[l].dst < |t|
    {
      assert WellFormedLink(net, net.links[l]);
    }
  }

  lemma VertexOf(net: Net, t: Table, l: nat) returns (p: nat)
    requires WellFormed(net) && LinkedTable(net, t) && l < |net.links|
    ensures var g := SearchGraph(net, t); IsGraph(g) && p < |g.buffers| && g.buffers[p] == l
  {
    SearchGraphIsGraph(net, t);
    assert WellFormedLink(net, net.links[l]);
    var buffers := SearchGraph(net, t).buffers;
    assert l in buffers;
    p :| p < |buffers| && buffers[p] == l;
  }

  /** Between different nodes only, detection is exact: it finds a cycle if and only if
      there is one. */
  lemma DetectionIsExact(net: Net, t: Table)
    requires WellFormed(net) && NoSelfLinks(net) && LinkedTable(net, t)
    ensures IsGraph(SearchGraph(net, t))
    ensures Detected(SearchGraph(net, t)) <==> Cyclic(SearchGraph(net, t))
  {
    var g := SearchGraph(net, t);
    SearchGraphIsGraph(net, t);
    forall p: nat
      ensures !Edge(g, p, p)
    {
      if p < |g.buffers| {
        NoSelfDependency(g, p);
      }
    }
    UndetectedCycles(g);
  }

  /** The search between two visits: the finished vertices are black, those on the
      path from the current root are gray, and every vertex before the root is black. */
  ghost predicate SearchState(g: Graph, color: seq<Color>, done: seq<nat>, stack: seq<nat>)
    requires IsGraph(g)
  {
    && |color| == |g.buffers|
    && Finished(g, done)
    && (forall p: nat :: p < |color| ==> (color[p] == Black <==> p in done))
    && (forall p: nat :: p < |color| ==> (color[p] == Gray <==> p in stack))
    && Distinct(stack) && Below(stack, |g.buffers|) && Path(g, stack)
    && (stack != [] ==> forall r: nat :: r < stack[0] ==> color[r] == Black)
  }

  /** Each vertex on the path has its predecessor's buffer as parent, the root its own. */
  ghost predicate Parents(g: Graph, parent: seq<nat>, stack: seq<nat>)
    requires IsGraph(g) && Below(stack, |g.buffers|)
  {
    && |parent| == |g.buffers|
    && (stack != [] ==> parent[stack[0]] == g.buffers[stack[0]])
    && forall i :: 0 < i < |stack| ==> parent[stack[i]] == g.buffers[stack[i - 1]]
  }

  lemma StackReaches(g: Graph, stack: seq<nat>, i: nat, j: nat)
    requires IsGraph(g) && Path(g, stack) && i < j < |stack|
    ensures Reaches(g, stack[i], stack[j])
  {
    var s := stack[i..j + 1];
    forall x | 0 <= x < |s| - 1
      ensures Edge(g, s[x], s[x + 1])
    {
      assert Edge(g, stack[i + x], stack[i + x + 1]);
    }
    assert PathFrom(g, s, stack[i], stack[j]);
  }

  /** A chain as long as the graph closes a cycle. */
  lemma LongChain(g: Graph, chain: seq<nat>)
    requires IsGraph(g) && Below(chain, |g.buffers|) && |chain| > |g.buffers| && Path(g, chain)
    ensures Cyclic(g)
  {
    var i, j := Pigeonhole(chain, |g.buffers|);
    StackReaches(g, chain, i, j);
  }

  /** A gray vertex met with another parent closes a cycle. */
  lemma GrayClosesCycle(g: Graph, color: seq<Color>, parent: seq<nat>, done: seq<nat>, stack: seq<nat>, q: nat)
    requires IsGraph(g) && stack != [] && SearchState(g, color, done, stack) && Parents(g, parent, stack)
    requires Edge(g, stack[|stack| - 1], q) && color[q] == Gray
    ensures parent[q] != g.buffers[stack[|stack| - 1]] ==> Detected(g)
    ensures parent[q] == g.buffers[stack[|stack| - 1]] ==> |stack| == 1 && q == stack[0]
  {
    var last := |stack| - 1;
    var elem := stack[last];
    assert q in stack;
    var i: nat :| i < |stack| && stack[i] == q;
    if i < last {
      StackReaches(g, stack, i, last);
      EdgeReaches(g, elem, q);
      assert MutuallyReachable(g, q, elem);
      assert stack[if i == 0 then 0 else i - 1] != elem;
    } else if last > 0 {
      StackReaches(g, stack, 0, last);
      assert color[stack[0]] == Gray;
      assert stack[last - 1] != elem;
      assert color[elem] == Gray;
      assert LateSelfLoop(g, stack[0], elem);
    }
  }

  /** What a visit of the white vertex `elem` starts from. */
  ghost predicate MayVisit(g: Graph, color: seq<Color>, parent: seq<nat>, done: seq<nat>, stack: seq<nat>, elem: nat)
    requires IsGraph(g)
  {
    && elem < |g.buffers|
    && SearchState(g, color, done, stack)
    && Parents(g, parent, stack + [elem])
    && color[elem] == White
    && (if stack == [] then forall r: nat :: r < elem ==> color[r] == Black
        else Edge(g, stack[|stack| - 1], elem))
  }

  lemma EnterVertex(g: Graph, color: seq<Color>, parent: seq<nat>, done: seq<nat>, stack: seq<nat>, elem: nat)
    requires IsGraph(g) && Below(stack + [elem], |g.buffers|) && MayVisit(g, color, parent, done, stack, elem)
    ensures SearchState(g, color[elem := Gray], done, stack + [elem])
  {
    var st := stack + [elem];
    assert elem !in stack && elem !in done;
    forall i | 0 <= i < |st| - 1
      ensures Edge(g, st[i], st[i + 1])
    {
      if i < |stack| - 1 {
        assert Edge(g, stack[i], stack[i + 1]);
      }
    }
    forall p: nat | p < |color|
      ensures color[elem := Gray][p] == Gray <==> p in st
    {
    }
  }

  /** A root with no white vertex before it was not reachable from an earlier one. */
  lemma RootIsEarly(g: Graph, color: seq<Color>, done: seq<nat>, elem: nat)
    requires IsGraph(g) && SearchState(g, color, done, []) && elem < |color| && color[elem] == White
    requires forall r: nat :: r < elem ==> color[r] == Black
    ensures EarlyLoop(g, elem)
  {
    forall r: nat
      ensures !LateSelfLoop(g, r, elem)
    {
      if r < elem && Reaches(g, r, elem) {
        assert r in done;
        var i :| 0 <= i < |done| && done[i] == r;
        var k := FinishedReaches(g, done, i, elem);
      }
    }
  }

  lemma LeaveVertex(g: Graph, color: seq<Color>, done: seq<nat>, stack: seq<nat>, elem: nat)
    requires IsGraph(g) && elem < |g.buffers|
    requires SearchState(g, color, done, stack + [elem])
    requires forall q: nat :: Edge(g, elem, q) ==> q in done || (q == elem && stack == [])
    requires stack == [] ==> EarlyLoop(g, elem)
    ensures SearchState(g, color[elem := Black], done + [elem], stack)
  {
    var st := stack + [elem];
    assert st[|stack|] == elem && elem in st;
    assert color[elem] == Gray;
    assert elem !in done;
    if stack != [] {
      assert st[0] == stack[0];
      assert !Edge(g, elem, elem);
    }
    FinishOne(g, done, elem);
    forall i | 0 <= i < |stack| - 1
      ensures Edge(g, stack[i], stack[i + 1])
    {
      assert Edge(g, st[i], st[i + 1]);
    }
    assert stack == st[..|stack|];
    assert elem !in stack;
    var c := color[elem := Black];
    forall p: nat | p < |c|
      ensures c[p] == Gray <==> p in stack
      ensures c[p] == Black <==> p in done + [elem]
    {
      assert p in st <==> p in stack || p == elem;
    }
  }

  lemma ParentsPrefix(g: Graph, parent: seq<nat>, stack: seq<nat>, elem: nat)
    requires IsGraph(g) && Below(stack + [elem], |g.buffers|) && Parents(g, parent, stack + [elem])
    ensures Below(stack, |g.buffers|) && Parents(g, parent, stack)
  {
    var path := stack + [elem];
    assert forall i :: 0 <= i < |stack| ==> stack[i] == path[i];
  }

  ghost function Whites(color: seq<Color>): (s: set<nat>)
    ensures forall p: nat :: p in s <==> p < |color| && color[p] == White
  {
    set p: nat | p < |color| && color[p] == White
  }

  /** The outer loop about to look at vertex `i`. */
  ghost predicate Between(g: Graph, color: seq<Color>, parent: seq<nat>, done: seq<nat>, i: nat)
    requires IsGraph(g)
  {
    && SearchState(g, color, done, [])
    && |parent| == |g.buffers|
    && (forall p: nat :: p < i && p < |color| ==> p in done)
    && (forall p: nat :: p < |color| && color[p] == White ==> parent[p] == g.buffers[p])
  }

  lemma BetweenMayVisit(g: Graph, color: seq<Color>, parent: seq<nat>, done: seq<nat>, i: nat)
    requires IsGraph(g) && Between(g, color, parent, done, i) && i < |color| && color[i] == White
    ensures Below([] + [i], |g.buffers|) && MayVisit(g, color, parent, done, [], i)
  {
    assert [] + [i] == [i];
  }
}
