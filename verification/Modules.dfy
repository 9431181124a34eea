/** The passes over the graph of memory modules (config.c): which configurations are
    accepted, the level of every module, and whether two hierarchies are disjoint. */
module Modules {
  import opened Sequences

  const MAX: nat := 10

  /** For every module, the modules below it, its block size, and whether it is a cache. */
  datatype Graph = Graph(lows: seq<seq<nat>>, blockSize: seq<nat>, isCache: seq<bool>)

  predicate WellFormed(g: Graph) {
    && |g.blockSize| == |g.lows| && |g.isCache| == |g.lows|
    && forall m :: 0 <= m < |g.lows| ==> Below(g.lows[m], |g.lows|)
  }

  // ---- Paths ----

  predicate Under(g: Graph, m: nat, low: nat) {
    m < |g.lows| && low in g.lows[m]
  }

  ghost predicate Path(g: Graph, p: seq<nat>) {
    && p != [] && Below(p, |g.lows|)
    && forall i: nat {:trigger EdgeAt(g, p, i)} :: i + 1 < |p| ==> EdgeAt(g, p, i)
  }

  ghost predicate EdgeAt(g: Graph, p: seq<nat>, i: nat)
    requires i + 1 < |p|
  {
    Under(g, p[i], p[i + 1])
  }

  ghost predicate PathFrom(g: Graph, p: seq<nat>, m: nat, x: nat) {
    Path(g, p) && p[0] == m && p[|p| - 1] == x
  }

  ghost predicate Reaches(g: Graph, m: nat, x: nat) {
    exists p :: PathFrom(g, p, m, x)
  }

  lemma ReachesItself(g: Graph, m: nat)
    requires m < |g.lows|
    ensures Reaches(g, m, m)
  {
    assert PathFrom(g, [m], m, m);
  }

  lemma Extend(g: Graph, m: nat, low: nat, p: seq<nat>)
    requires WellFormed(g) && Under(g, m, low) && Path(g, p) && p[0] == low
    ensures Path(g, [m] + p)
  {
    forall i: nat | i + 1 < |p| + 1
      ensures EdgeAt(g, [m] + p, i)
    {
      assert i > 0 ==> EdgeAt(g, p, i - 1);
    }
  }

  lemma Append(g: Graph, p: seq<nat>, low: nat)
    requires WellFormed(g) && Path(g, p) && Under(g, p[|p| - 1], low)
    ensures Path(g, p + [low])
  {
    var m := p[|p| - 1];
    assert Below(g.lows[m], |g.lows|);
    var j: nat :| j < |g.lows[m]| && g.lows[m][j] == low;
    forall i: nat | i + 1 < |p| + 1
      ensures EdgeAt(g, p + [low], i)
    {
      assert i + 1 < |p| ==> EdgeAt(g, p, i);
    }
  }

  /** A path is one module, or leads on from a module below its first. */
  lemma Split(g: Graph, p: seq<nat>)
    requires Path(g, p) && |p| > 1
    ensures Under(g, p[0], p[1]) && Path(g, p[1..])
  {
    assert EdgeAt(g, p, 0);
    forall i: nat | i + 1 < |p[1..]|
      ensures EdgeAt(g, p[1..], i)
    {
      assert EdgeAt(g, p, i + 1);
    }
  }

  lemma ReachesThrough(g: Graph, m: nat, low: nat, x: nat)
    requires WellFormed(g) && Under(g, m, low) && Reaches(g, low, x)
    ensures Reaches(g, m, x)
  {
    var p :| PathFrom(g, p, low, x);
    Extend(g, m, low, p);
    assert PathFrom(g, [m] + p, m, x);
  }

  /** Whatever a module reaches is itself or reached from a module below it. */
  lemma ReachesOn(g: Graph, m: nat, x: nat) returns (low: nat)
    requires Reaches(g, m, x) && x != m
    ensures Under(g, m, low) && Reaches(g, low, x)
  {
    var p :| PathFrom(g, p, m, x);
    Split(g, p);
    low := p[1];
    assert PathFrom(g, p[1..], low, x);
  }

  // ---- The route to main memory ----

  /** What the check accepts: at most the maximum number of levels, block sizes that never
      decrease, and no cache at the end. */
  predicate Accepted(g: Graph, m: nat, size: nat, level: nat)
    requires WellFormed(g) && m < |g.lows|
    decreases MAX + 1 - level
  {
    && level <= MAX
    && size <= g.blockSize[m]
    && !(g.lows[m] == [] && g.isCache[m])
    && forall i :: 0 <= i < |g.lows[m]| ==> Accepted(g, g.lows[m][i], g.blockSize[m], level + 1)
  }

  /** Along the path the block size never decreases, and a cache has a module below. */
  ghost predicate GoodPath(g: Graph, p: seq<nat>, size: nat)
    requires WellFormed(g) && Path(g, p)
  {
    && size <= g.blockSize[p[0]]
    && (forall i: nat :: i + 1 < |p| ==> g.blockSize[p[i]] <= g.blockSize[p[i + 1]])
    && !(g.lows[p[|p| - 1]] == [] && g.isCache[p[|p| - 1]])
  }

  /** A configuration is accepted exactly when every path from the module is good and no
      longer than the number of levels left. */
  lemma {:induction false} AcceptedPath(g: Graph, m: nat, size: nat, level: nat, p: seq<nat>)
    requires WellFormed(g) && m < |g.lows| && Accepted(g, m, size, level)
    requires Path(g, p) && p[0] == m
    ensures GoodPath(g, p, size) && level + |p| - 1 <= MAX
    decreases |p|
  {
    if |p| > 1 {
      Split(g, p);
      var i: nat :| i < |g.lows[m]| && g.lows[m][i] == p[1];
      AcceptedPath(g, p[1], g.blockSize[m], level + 1, p[1..]);
      forall j: nat | j + 1 < |p|
        ensures g.blockSize[p[j]] <= g.blockSize[p[j + 1]]
      {
        if j > 0 {
          assert p[1..][j - 1] == p[j] && p[1..][j - 1 + 1] == p[j + 1];
        }
      }
    }
  }

  lemma {:induction false} RejectedPath(g: Graph, m: nat, size: nat, level: nat) returns (p: seq<nat>)
    requires WellFormed(g) && m < |g.lows| && !Accepted(g, m, size, level)
    ensures Path(g, p) && p[0] == m && !(GoodPath(g, p, size) && level + |p| - 1 <= MAX)
    decreases MAX + 1 - level
  {
    p := [m];
    if level <= MAX && size <= g.blockSize[m] && !(g.lows[m] == [] && g.isCache[m]) {
      var i :| 0 <= i < |g.lows[m]| && !Accepted(g, g.lows[m][i], g.blockSize[m], level + 1);
      var low := g.lows[m][i];
      var rest := RejectedPath(g, low, g.blockSize[m], level + 1);
      Extend(g, m, low, rest);
      p := [m] + rest;
      if GoodPath(g, p, size) {
        GoodRest(g, m, rest, size);
      }
    }
  }

  lemma GoodRest(g: Graph, m: nat, rest: seq<nat>, size: nat)
    requires WellFormed(g) && Path(g, rest) && Path(g, [m] + rest) && GoodPath(g, [m] + rest, size)
    ensures GoodPath(g, rest, g.blockSize[m])
  {
    var p := [m] + rest;
    assert p[0] == m && p[0 + 1] == rest[0];
    forall i: nat | i + 1 < |rest|
      ensures g.blockSize[rest[i]] <= g.blockSize[rest[i + 1]]
    {
      assert p[i + 1] == rest[i] && p[i + 1 + 1] == rest[i + 1];
    }
  }

  /** Every module has been checked, from level 1 on. */
  ghost predicate AllAccepted(g: Graph) {
    WellFormed(g) && forall m :: 0 <= m < |g.lows| ==> Accepted(g, m, g.blockSize[m], 1)
  }

  /** No path of an accepted configuration is longer than the maximum, so none comes back
      to where it was: the graph has no cycles. */
  lemma AcceptedIsAcyclic(g: Graph, m: nat, low: nat)
    requires AllAccepted(g) && Under(g, m, low)
    ensures !Reaches(g, low, m)
  {
    if Reaches(g, low, m) {
      var p := LongPath(g, m, low, MAX);
      AcceptedPath(g, m, g.blockSize[m], 1, p);
    }
  }

  /** Going round a cycle makes paths of any length. */
  lemma {:induction false} LongPath(g: Graph, m: nat, low: nat, n: nat) returns (p: seq<nat>)
    requires WellFormed(g) && Under(g, m, low) && Reaches(g, low, m)
    ensures Path(g, p) && p[0] == m && |p| > n
    decreases n
  {
    if n == 0 {
      p := [m];
    } else {
      var rest := LongPath(g, m, low, n - 1);
      var c :| PathFrom(g, c, low, m);
      Extend(g, m, low, c);
      p := ([m] + c) + rest[1..];
      Join(g, [m] + c, rest);
    }
  }

  lemma Join(g: Graph, a: seq<nat>, b: seq<nat>)
    requires Path(g, a) && Path(g, b) && a[|a| - 1] == b[0]
    ensures Path(g, a + b[1..])
  {
    var p := a + b[1..];
    forall i: nat | i + 1 < |p|
      ensures EdgeAt(g, p, i)
    {
      if i + 1 < |a| {
        assert EdgeAt(g, a, i);
      } else {
        assert EdgeAt(g, b, i - (|a| - 1));
      }
    }
  }
}
