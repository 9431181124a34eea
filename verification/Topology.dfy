/** Nodes, links and walks of an interconnect (node.c, link.c, network.c). */
module Topology {
  import opened Sequences

  datatype NodeKind = EndNode | Switch

  /** A node with the sizes given to each of its input and output buffers, and
      the bandwidth of its crossbar. */
  datatype Node = Node(kind: NodeKind, inputSize: nat, outputSize: nat, bandwidth: nat)

  /** A unidirectional link. Adding a link creates one output buffer in `src` and
      one input buffer in `dst`, and buffers come from nowhere else, so a link's
      index also names its two buffers. */
  datatype Link = Link(src: nat, dst: nat, bandwidth: nat)

  datatype Net = Net(nodes: seq<Node>, links: seq<Link>)

  /** What node, buffer and link creation check. */
  ghost predicate WellFormed(net: Net) {
    && (forall i :: 0 <= i < |net.nodes| ==>
          net.nodes[i].kind == EndNode || net.nodes[i].bandwidth >= 1)
    && (forall l :: 0 <= l < |net.links| ==> WellFormedLink(net, net.links[l]))
  }

  ghost predicate WellFormedLink(net: Net, link: Link) {
    && link.src < |net.nodes|
    && link.dst < |net.nodes|
    && link.bandwidth >= 1
    && net.nodes[link.src].outputSize >= 1
    && net.nodes[link.dst].inputSize >= 1
    && !(net.nodes[link.src].kind == EndNode && net.nodes[link.dst].kind == EndNode)
  }

  /** Link creation does not reject a link from a node to itself. */
  ghost predicate SelfLink(net: Net, u: nat) {
    Adjacent(net, u, u)
  }

  ghost predicate NoSelfLinks(net: Net) {
    forall l :: 0 <= l < |net.links| ==> net.links[l].src != net.links[l].dst
  }

  ghost predicate Adjacent(net: Net, u: nat, v: nat) {
    exists l :: 0 <= l < |net.links| && net.links[l].src == u && net.links[l].dst == v
  }

  /** A walk lists the nodes it visits; its length is the number of links. */
  ghost predicate Walk(net: Net, w: seq<nat>) {
    && |w| > 0
    && Below(w, |net.nodes|)
    && forall i :: 0 <= i < |w| - 1 ==> Adjacent(net, w[i], w[i + 1])
  }

  ghost predicate WalkFrom(net: Net, w: seq<nat>, u: nat, v: nat) {
    Walk(net, w) && w[0] == u && w[|w| - 1] == v
  }

  ghost predicate Reachable(net: Net, u: nat, v: nat) {
    exists w :: WalkFrom(net, w, u, v)
  }

  /** `d` is the least number of links on a walk from `u` to `v`. */
  ghost predicate Distance(net: Net, u: nat, v: nat, d: int) {
    && (exists w :: WalkFrom(net, w, u, v) && |w| - 1 == d)
    && (forall w :: WalkFrom(net, w, u, v) ==> d <= |w| - 1)
  }

  /** All nodes of `w` but the first and the last are below `k`. */
  ghost predicate Interior(w: seq<nat>, k: nat) {
    forall i :: 0 < i < |w| - 1 ==> w[i] < k
  }

  lemma NoInterior(w: seq<nat>)
    ensures |w| > 2 ==> !Interior(w, 0)
  {
    if |w| > 2 {
      assert !(w[1] < 0);
    }
  }

  lemma Concatenate(net: Net, a: seq<nat>, b: seq<nat>, u: nat, v: nat, t: nat)
    requires WalkFrom(net, a, u, v) && WalkFrom(net, b, v, t)
    ensures WalkFrom(net, a + b[1..], u, t)
    ensures |a + b[1..]| - 1 == (|a| - 1) + (|b| - 1)
  {
    var c := a + b[1..];
    forall i | 0 <= i < |c| - 1
      ensures Adjacent(net, c[i], c[i + 1])
    {
      if i < |a| - 1 {
        assert Adjacent(net, a[i], a[i + 1]);
      } else {
        assert Adjacent(net, b[i - (|a| - 1)], b[i - (|a| - 1) + 1]);
      }
    }
  }

  /** Cutting out the loop between two visits of a node leaves a walk. */
  lemma CutLoop(net: Net, w: seq<nat>, p: nat, q: nat)
    requires Walk(net, w) && p < q < |w| && w[p] == w[q]
    ensures WalkFrom(net, w[..p] + w[q..], w[0], w[|w| - 1])
  {
    var c := w[..p] + w[q..];
    forall i | 0 <= i < |c| - 1
      ensures Adjacent(net, c[i], c[i + 1])
    {
      if i < p - 1 {
        assert Adjacent(net, w[i], w[i + 1]);
      } else if i == p - 1 {
        assert Adjacent(net, w[p - 1], w[p - 1 + 1]);
      } else {
        assert Adjacent(net, w[i - p + q], w[i - p + q + 1]);
      }
    }
  }

  /** A reachable node is reached by a walk with fewer links than there are nodes. */
  lemma {:induction false} ShortWalk(net: Net, w: seq<nat>) returns (s: seq<nat>)
    requires Walk(net, w)
    ensures WalkFrom(net, s, w[0], w[|w| - 1]) && |s| - 1 < |net.nodes| && |s| <= |w|
    decreases |w|
  {
    if |w| <= |net.nodes| {
      s := w;
    } else {
      var p, q := Pigeonhole(w, |net.nodes|);
      CutLoop(net, w, p, q);
      s := ShortWalk(net, w[..p] + w[q..]);
    }
  }

  /** A part of a walk is a walk. */
  lemma SubWalk(net: Net, w: seq<nat>, p: nat, q: nat)
    requires Walk(net, w) && p <= q < |w|
    ensures WalkFrom(net, w[p..q + 1], w[p], w[q])
  {
    var c := w[p..q + 1];
    forall i | 0 <= i < |c| - 1
      ensures Adjacent(net, c[i], c[i + 1])
    {
      assert Adjacent(net, w[p + i], w[p + i + 1]);
    }
  }

  /** The first and last visit of `k` inside a walk that may pass through `k`. */
  lemma Visits(w: seq<nat>, k: nat) returns (p: nat, q: nat)
    requires exists i :: 0 <= i < |w| && w[i] == k
    ensures p <= q < |w| && w[p] == k && w[q] == k
    ensures forall i :: 0 <= i < p ==> w[i] != k
    ensures forall i :: q < i < |w| ==> w[i] != k
  {
    p := 0;
    while w[p] != k
      invariant p < |w|
      invariant forall i :: 0 <= i < p ==> w[i] != k
      invariant exists i :: p <= i < |w| && w[i] == k
      decreases |w| - p
    {
      p := p + 1;
    }
    q := |w| - 1;
    while w[q] != k
      invariant p <= q < |w|
      invariant forall i :: q < i < |w| ==> w[i] != k
      decreases q
    {
      q := q - 1;
    }
  }

  /** A walk whose interior stays within `k + 1` nodes either avoids `k` inside,
      after removing loops, or splits at `k` into two walks that do. */
  lemma SplitAt(net: Net, w: seq<nat>, k: nat) returns (split: bool, a: seq<nat>, b: seq<nat>)
    requires Walk(net, w) && Interior(w, k + 1)
    ensures !split ==>
              && WalkFrom(net, a, w[0], w[|w| - 1]) && Interior(a, k) && |a| <= |w|
    ensures split ==>
              && w[0] != k && w[|w| - 1] != k
              && WalkFrom(net, a, w[0], k) && Interior(a, k)
              && WalkFrom(net, b, k, w[|w| - 1]) && Interior(b, k)
              && (|a| - 1) + (|b| - 1) <= |w| - 1
  {
    a, b := w, [];
    if k !in w {
      split := false;
    } else {
      var p, q := Visits(w, k);
      SubWalk(net, w, 0, p);
      SubWalk(net, w, q, |w| - 1);
      split := w[0] != k && w[|w| - 1] != k;
      if split {
        a, b := w[0..p + 1], w[q..|w| - 1 + 1];
      } else if w[0] == k {
        a := w[q..|w| - 1 + 1];
      } else {
        a := w[0..p + 1];
      }
    }
  }

  lemma OneLink(net: Net, u: nat, v: nat)
    requires u < |net.nodes| && v < |net.nodes| && Adjacent(net, u, v)
    ensures WalkFrom(net, [u, v], u, v)
  {
  }

  /** A walk of one link is a link. */
  lemma WalkOfOne(net: Net, w: seq<nat>, u: nat, v: nat)
    requires WalkFrom(net, w, u, v) && |w| == 2
    ensures Adjacent(net, u, v)
  {
    assert Adjacent(net, w[0], w[0 + 1]);
  }

  lemma DistanceUnique(net: Net, u: nat, v: nat, d: int, e: int)
    requires Distance(net, u, v, d) && Distance(net, u, v, e)
    ensures d == e
  {
  }
}
