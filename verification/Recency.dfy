/** Orders of last use, most recent first. */
module Recency {
  import opened Sequences

  /** Where `w` is in the list. */
  ghost function Position(s: seq<nat>, w: nat): (i: nat)
    requires w in s
    ensures i < |s| && s[i] == w
  {
    var i: nat :| i < |s| && s[i] == w;
    i
  }

  ghost function Without(s: seq<nat>, w: nat): seq<nat> {
    if w in s then RemoveAt(s, Position(s, w)) else s
  }

  ghost function ToFront(s: seq<nat>, w: nat): seq<nat> {
    [w] + Without(s, w)
  }

  ghost function ToBack(s: seq<nat>, w: nat): seq<nat> {
    Without(s, w) + [w]
  }

  /** The ways in a history of uses, the one used last first. */
  ghost function ByRecency(history: seq<nat>): seq<nat> {
    if history == [] then []
    else ToFront(ByRecency(history[..|history| - 1]), history[|history| - 1])
  }

  /** The order follows from the history. */
  ghost predicate Tracks(order: seq<nat>, history: seq<nat>) {
    order == ByRecency(history)
  }

  lemma Recent(order: seq<nat>, history: seq<nat>, w: nat)
    requires Tracks(order, history)
    ensures Tracks(ToFront(order, w), history + [w])
  {
    assert (history + [w])[..|history|] == history;
  }

  /** When `w` was last used, -1 if never. */
  function LastUse(history: seq<nat>, w: nat): int {
    if history == [] then -1
    else if history[|history| - 1] == w then |history| - 1
    else LastUse(history[..|history| - 1], w)
  }

  lemma WithoutKeeps(s: seq<nat>, w: nat)
    requires Distinct(s)
    ensures Distinct(Without(s, w)) && w !in Without(s, w)
    ensures forall x :: x in Without(s, w) <==> x in s && x != w
    ensures |Without(s, w)| == if w in s then |s| - 1 else |s|
  {
    if w in s {
      var i := Position(s, w);
      var t := Without(s, w);
      forall x
        ensures x in t <==> x in s && x != w
      {
        if x in s && x != w {
          var j :| 0 <= j < |s| && s[j] == x;
          assert t[if j < i then j else j - 1] == x;
        }
      }
    }
  }

  lemma LastUseBound(history: seq<nat>, w: nat)
    ensures -1 <= LastUse(history, w) < |history|
  {
  }

  /** The order lists exactly the ways used, each once, by decreasing time of last use. */
  lemma {:induction false} RecencyOrders(history: seq<nat>)
    ensures Distinct(ByRecency(history))
    ensures forall w :: w in ByRecency(history) <==> w in history
    ensures forall i, j :: 0 <= i < j < |ByRecency(history)| ==>
      LastUse(history, ByRecency(history)[i]) > LastUse(history, ByRecency(history)[j])
  {
    if history != [] {
      var n := |history| - 1;
      var before, w := history[..n], history[n];
      RecencyOrders(before);
      var s := ByRecency(before);
      WithoutKeeps(s, w);
      assert history == before + [w];
      forall i, j | 0 <= i < j < |ToFront(s, w)|
        ensures LastUse(history, ToFront(s, w)[i]) > LastUse(history, ToFront(s, w)[j])
      {
        FrontOrdered(before, s, w, i, j);
      }
    }
  }

  lemma FrontOrdered(before: seq<nat>, s: seq<nat>, w: nat, i: nat, j: nat)
    requires Distinct(s)
    requires forall x, y :: 0 <= x < y < |s| ==> LastUse(before, s[x]) > LastUse(before, s[y])
    requires i < j < |ToFront(s, w)|
    ensures LastUse(before + [w], ToFront(s, w)[i]) > LastUse(before + [w], ToFront(s, w)[j])
  {
    WithoutKeeps(s, w);
    var t := Without(s, w);
    LastUseBound(before, t[j - 1]);
    assert t[j - 1] in t && (before + [w])[..|before|] == before;
    if i > 0 {
      assert t[i - 1] in t;
      StillOrdered(before, s, w, i - 1, j - 1);
    }
  }

  lemma StillOrdered(before: seq<nat>, s: seq<nat>, w: nat, i: nat, j: nat)
    requires forall x, y :: 0 <= x < y < |s| ==> LastUse(before, s[x]) > LastUse(before, s[y])
    requires i < j < |Without(s, w)|
    ensures LastUse(before, Without(s, w)[i]) > LastUse(before, Without(s, w)[j])
  {
    if w in s {
      var k := Position(s, w);
      assert Without(s, w)[i] == s[if i < k then i else i + 1];
      assert Without(s, w)[j] == s[if j < k then j else j + 1];
    }
  }

  /** The last in the order is the least recently used. */
  lemma LeastRecent(history: seq<nat>, w: nat)
    requires history != [] && w in history
    ensures ByRecency(history) != []
    ensures var victim := ByRecency(history)[|ByRecency(history)| - 1];
      victim in history && LastUse(history, victim) <= LastUse(history, w)
  {
    RecencyOrders(history);
    var s := ByRecency(history);
    assert w in s;
    var i :| 0 <= i < |s| && s[i] == w;
    assert s[|s| - 1] in s;
  }
}
