/** A set of a set-associative cache (cache.c): the doubly linked list of its ways, relinked
    in place, refines a sequence, and that sequence is the order of last use. */
module CacheSets {
  import opened Sequences
  import opened Recency

  datatype Policy = LRU | FIFO | Random

  class CacheSet {
    const assoc: nat
    const policy: Policy
    const prev: array<int>
    const next: array<int>
    const tag: array<int>
    const state: array<int>
    const prefetched: array<int>
    var head: int
    var tail: int
    /** The list, head first. */
    ghost var order: seq<nat>
    /** The number of moves to the head so far, and for each way which of them was its
        last; zero and below stand for the order of the fresh list. */
    ghost var moves: nat
    ghost var lastMove: seq<int>

    ghost predicate Arrays() {
      && assoc >= 1
      && prev.Length == assoc && next.Length == assoc
      && tag.Length == assoc && state.Length == assoc && prefetched.Length == assoc
      && prev != next && tag != state && tag != prefetched && state != prefetched
      && {prev, next} !! {tag, state, prefetched}
    }

    /** The pointers link exactly the ways of `s`, in that order. */
    ghost predicate Links(s: seq<nat>)
      requires Arrays() && Below(s, assoc)
      reads this, prev, next
    {
      && s != []
      && head == s[0] && tail == s[|s| - 1]
      && forall i :: 0 <= i < |s| ==> LinkAt(s, i)
    }

    ghost predicate LinkAt(s: seq<nat>, i: nat)
      requires Arrays() && Below(s, assoc) && i < |s|
      reads prev, next
    {
      && prev[s[i]] == (if i == 0 then NONE else s[i - 1])
      && next[s[i]] == (if i == |s| - 1 then NONE else s[i + 1])
    }

    ghost predicate Permutation()
      reads this
    {
      |order| == assoc && Distinct(order) && Below(order, assoc)
    }

    ghost predicate Valid()
      reads this, prev, next
    {
      && Arrays()
      && Permutation()
      && Links(order)
      && |lastMove| == assoc && ByLastMove(order, lastMove, moves)
    }

    lemma EveryWayListed(w: nat)
      requires Permutation() && w < assoc
      ensures w in order
    {
      if w !in order {
        DistinctBelow(order + [w], assoc);
      }
    }

    constructor (assoc: nat, policy: Policy)
      requires assoc >= 1
      ensures this.assoc == assoc && this.policy == policy && Valid()
      ensures order == Up(0, assoc) && moves == 0 && lastMove == seq(assoc, v => -v)
      ensures fresh(prev) && fresh(next) && fresh(tag) && fresh(state) && fresh(prefetched)
    {
      this.assoc := assoc;
      this.policy := policy;
      var back: nat -> int := i => i - 1;
      prev := new int[assoc](back);
      next := new int[assoc](i => if i < assoc - 1 then i + 1 else NONE);
      tag := new int[assoc](_ => 0);
      state := new int[assoc](_ => 0);
      prefetched := new int[assoc](_ => 0);
      head := 0;
      tail := assoc - 1;
      order := Up(0, assoc);
      moves := 0;
      lastMove := seq(assoc, v => -v);
      new;
      assert ByLastMove(order, lastMove, moves) by {
        assert forall i, j {:trigger Later(order, lastMove, i, j)} :: Later(order, lastMove, i, j);
      }
      forall i | 0 <= i < assoc
        ensures LinkAt(order, i)
      {
      }
    }

    /** Take the way at position `i` out of the list; its own pointers are left as they
        were. */
    method Unlink(w: nat, ghost i: nat)
      requires Arrays() && Permutation() && Links(order) && assoc >= 2 && i < assoc && order[i] == w
      modifies this`head, this`tail, this`order, prev, next
      ensures order == RemoveAt(old(order), i) && Below(order, assoc) && Links(order)
    {
      assert LinkAt(order, i);
      assert i > 0 ==> LinkAt(order, i - 1);
      assert i < assoc - 1 ==> LinkAt(order, i + 1);
      if prev[w] == NONE {
        head := next[w];
        prev[next[w]] := NONE;
      } else if next[w] == NONE {
        tail := prev[w];
        next[prev[w]] := NONE;
      } else {
        next[prev[w]] := next[w];
        prev[next[w]] := prev[w];
      }
      ghost var before := order;
      order := RemoveAt(order, i);
      forall j | 0 <= j < |order|
        ensures LinkAt(order, j)
      {
        assert old(LinkAt(before, if j < i then j else j + 1));
      }
    }

    method LinkAtHead(w: nat)
      requires Arrays() && Distinct(order) && Below(order, assoc) && Links(order)
      requires w < assoc && forall j :: 0 <= j < |order| ==> order[j] != w
      modifies this`head, this`order, prev, next
      ensures order == [w] + old(order) && Below(order, assoc) && Links(order)
    {
      next[w] := head;
      prev[w] := NONE;
      prev[head] := w;
      head := w;
      ghost var before := order;
      order := [w] + order;
      forall j | 0 <= j < |order|
        ensures LinkAt(order, j)
      {
        if j > 0 {
          assert old(LinkAt(before, j - 1));
        }
      }
    }

    method LinkAtTail(w: nat)
      requires Arrays() && Distinct(order) && Below(order, assoc) && Links(order)
      requires w < assoc && forall j :: 0 <= j < |order| ==> order[j] != w
      modifies this`tail, this`order, prev, next
      ensures order == old(order) + [w] && Below(order, assoc) && Links(order)
    {
      prev[w] := tail;
      next[w] := NONE;
      next[tail] := w;
      tail := w;
      ghost var before := order;
      order := order + [w];
      forall j | 0 <= j < |order|
        ensures LinkAt(order, j)
      {
        if j < |order| - 1 {
          assert old(LinkAt(before, j));
        }
      }
    }

    /** Move a way to the head or the tail of the list. */
    method UpdateWaylist(w: nat, toHead: bool)
      requires Arrays() && Permutation() && Links(order) && w < assoc
      modifies this`head, this`tail, this`order, prev, next
      ensures Permutation() && Links(order)
      ensures order == if toHead then ToFront(old(order), w) else ToBack(old(order), w)
    {
      EveryWayListed(w);
      Relink(w, Position(order, w), toHead);
    }

    method Relink(w: nat, ghost i: nat, toHead: bool)
      requires Arrays() && Permutation() && Links(order) && i < assoc && order[i] == w
      modifies this`head, this`tail, this`order, prev, next
      ensures Permutation() && Links(order)
      ensures order == if toHead then [w] + RemoveAt(old(order), i) else RemoveAt(old(order), i) + [w]
    {
      assert LinkAt(order, i);
      RemoveAtKeeps(order, i, assoc);
      if prev[w] == NONE && next[w] == NONE {
        assert head == w && tail == w;
        InPlace(order, i);
        return;
      }
      if prev[w] == NONE {
        assert head == w && tail != w;
        if toHead {
          InPlace(order, i);
          return;
        }
      } else if next[w] == NONE {
        assert head != w && tail == w;
        if !toHead {
          InPlace(order, i);
          return;
        }
      } else {
        assert head != w && tail != w;
      }
      Unlink(w, i);
      if toHead {
        LinkAtHead(w);
      } else {
        LinkAtTail(w);
      }
    }

    // ---- Uses and replacements ----

    ghost predicate Recorded(before: nat, last: seq<int>, w: nat)
      reads this
    {
      w < |last| && moves == before + 1 && lastMove == last[w := moves]
    }

    /** Move a way to the head, and record it. */
    method Touch(w: nat)
      requires Valid() && w < assoc
      modifies this`head, this`tail, this`order, this`moves, this`lastMove, prev, next
      ensures Valid() && order == ToFront(old(order), w) && Recorded(old(moves), old(lastMove), w)
    {
      ghost var before := order;
      EveryWayListed(w);
      UpdateWaylist(w, true);
      MovedIsLast(before, order, lastMove, moves, w);
      moves := moves + 1;
      lastMove := lastMove[w := moves];
    }

    /** The head stays where it is. */
    method TouchHead(w: nat)
      requires Valid() && order[0] == w
      modifies this`moves, this`lastMove
      ensures Valid() && Recorded(old(moves), old(lastMove), w)
    {
      HeadMovedIsLast(order, lastMove, moves, w);
      moves := moves + 1;
      lastMove := lastMove[w := moves];
    }

    /** An access moves its way to the head: always under LRU, only while the way is
        invalid under FIFO, and never under random replacement. */
    method AccessBlock(w: nat)
      requires Valid() && w < assoc
      modifies this`head, this`tail, this`order, this`moves, this`lastMove, prev, next
      ensures Valid()
      ensures var touched := policy == LRU || (policy == FIFO && state[w] == 0);
        if touched then order == ToFront(old(order), w) && Recorded(old(moves), old(lastMove), w)
        else order == old(order) && moves == old(moves) && lastMove == old(lastMove)
    {
      var moveToHead := policy == LRU || (policy == FIFO && state[w] == 0);
      if moveToHead {
        if prev[w] != NONE {
          Touch(w);
        } else {
          IsHead(w);
          TouchHead(w);
          AtHead(w);
        }
      }
    }

    lemma IsHead(w: nat)
      requires Arrays() && Permutation() && Links(order) && w < assoc && prev[w] == NONE
      ensures order[0] == w
    {
      EveryWayListed(w);
      assert LinkAt(order, Position(order, w));
    }

    lemma AtHead(w: nat)
      requires Permutation() && w < assoc && order[0] == w
      ensures ToFront(order, w) == order
    {
      AlreadyThere(order, w);
    }

    /** Under FIFO a new tag moves the way to the head. */
    method SetBlock(w: nat, newTag: int, newState: int, newPrefetched: int)
      requires Valid() && w < assoc
      modifies this`head, this`tail, this`order, this`moves, this`lastMove, prev, next, tag, state, prefetched
      ensures Valid() && tag[w] == newTag && state[w] == newState && prefetched[w] == newPrefetched
      ensures forall v :: 0 <= v < assoc && v != w ==>
        tag[v] == old(tag[v]) && state[v] == old(state[v]) && prefetched[v] == old(prefetched[v])
      ensures var touched := policy == FIFO && old(tag[w]) != newTag;
        if touched then order == ToFront(old(order), w) && Recorded(old(moves), old(lastMove), w)
        else order == old(order) && moves == old(moves) && lastMove == old(lastMove)
    {
      if policy == FIFO && tag[w] != newTag {
        Touch(w);
      }
      tag[w] := newTag;
      state[w] := newState;
      prefetched[w] := newPrefetched;
    }

    /** Under LRU and FIFO the way to replace is the last of the list, which moves to its
        head: no way has been there longer without moving. Otherwise `random` decides. */
    method ReplaceBlock(random: nat) returns (w: nat)
      requires Valid()
      modifies this`head, this`tail, this`order, this`moves, this`lastMove, prev, next
      ensures Valid() && w < assoc
      ensures policy != Random ==>
        && w == old(order)[assoc - 1]
        && order == ToFront(old(order), w) && Recorded(old(moves), old(lastMove), w)
        && |old(lastMove)| == assoc && forall v :: 0 <= v < assoc ==> old(lastMove)[w] <= old(lastMove)[v]
      ensures policy == Random ==>
        w == random % assoc && order == old(order) && moves == old(moves) && lastMove == old(lastMove)
    {
      if policy == LRU || policy == FIFO {
        w := tail;
        LastIsLeastRecent();
        Touch(tail);
      } else {
        w := random % assoc;
      }
    }

    lemma LastIsLeastRecent()
      requires Permutation() && |lastMove| == assoc >= 1 && ByLastMove(order, lastMove, moves)
      ensures forall v :: 0 <= v < assoc ==> lastMove[order[assoc - 1]] <= lastMove[v]
    {
      forall v: nat | v < assoc
        ensures lastMove[order[assoc - 1]] <= lastMove[v]
      {
        EveryWayListed(v);
        assert v != order[assoc - 1] ==> Later(order, lastMove, Position(order, v), assoc - 1);
      }
    }
  }

  ghost predicate Later(s: seq<nat>, last: seq<int>, i: int, j: int)
    requires Below(s, |last|)
  {
    0 <= i < j < |s| ==> last[s[i]] > last[s[j]]
  }

  /** The ways are ordered by last move, the latest first. */
  ghost predicate ByLastMove(s: seq<nat>, last: seq<int>, moves: int) {
    && Below(s, |last|)
    && (forall v :: 0 <= v < |last| ==> last[v] <= moves)
    && forall i, j {:trigger Later(s, last, i, j)} :: Later(s, last, i, j)
  }

  lemma HeadMovedIsLast(s: seq<nat>, last: seq<int>, moves: int, w: nat)
    requires ByLastMove(s, last, moves) && Distinct(s) && s != [] && s[0] == w
    ensures w < |last| && ByLastMove(s, last[w := moves + 1], moves + 1)
  {
    var now := last[w := moves + 1];
    forall i, j
      ensures Later(s, now, i, j)
    {
      assert Later(s, last, i, j);
    }
  }

  lemma MovedIsLast(s: seq<nat>, t: seq<nat>, last: seq<int>, moves: int, w: nat)
    requires ByLastMove(s, last, moves) && Distinct(s) && w in s && t == ToFront(s, w)
    ensures w < |last| && ByLastMove(t, last[w := moves + 1], moves + 1)
  {
    var k := Position(s, w);
    var now := last[w := moves + 1];
    forall j | 0 < j < |t|
      ensures t[j] == s[if j - 1 < k then j - 1 else j] && t[j] != w && now[t[j]] == last[t[j]]
    {
    }
    assert Below(t, |now|);
    forall i, j
      ensures Later(t, now, i, j)
    {
      if 0 < i < j < |t| {
        assert Later(s, last, if i - 1 < k then i - 1 else i, if j - 1 < k then j - 1 else j);
      }
    }
  }

  lemma RemoveAtKeeps(s: seq<nat>, i: nat, n: nat)
    requires Distinct(s) && Below(s, n) && i < |s|
    ensures Distinct(RemoveAt(s, i)) && Below(RemoveAt(s, i), n)
    ensures forall j :: 0 <= j < |s| - 1 ==> RemoveAt(s, i)[j] != s[i]
  {
  }

  lemma InPlace(s: seq<nat>, i: nat)
    requires i < |s|
    ensures i == 0 ==> [s[i]] + RemoveAt(s, i) == s
    ensures i == |s| - 1 ==> RemoveAt(s, i) + [s[i]] == s
  {
  }

  lemma AlreadyThere(s: seq<nat>, w: nat)
    requires Distinct(s) && w in s
    ensures s[0] == w ==> ToFront(s, w) == s
    ensures s[|s| - 1] == w ==> ToBack(s, w) == s
  {
    var i := Position(s, w);
    if s[0] == w {
      assert i == 0;
    }
    if s[|s| - 1] == w {
      assert i == |s| - 1;
    }
  }

  // ---- What the list means ----

  /** The list after some ways have moved to its head one after the other. */
  ghost function Replay(order: seq<nat>, moves: seq<nat>): seq<nat>
    decreases |moves|
  {
    if moves == [] then order else Replay(ToFront(order, moves[0]), moves[1..])
  }

  lemma {:induction false} ReplayTracks(order: seq<nat>, history: seq<nat>, k: nat)
    requires k <= |history| && Tracks(order, history[..k])
    ensures Tracks(Replay(order, history[k..]), history)
    decreases |history| - k
  {
    if k == |history| {
      assert history[..k] == history;
    } else {
      Recent(order, history[..k], history[k]);
      assert history[..k + 1] == history[..k] + [history[k]];
      ReplayTracks(ToFront(order, history[k]), history, k + 1);
      assert history[k..][1..] == history[k + 1..];
    }
  }

  /** Whatever ways have moved to the head of a fresh list, it still lists each way once,
      and the last of them, the next to be replaced, is the one whose last move lies
      furthest back; ways that never moved count as moved before all others, way 0 last. */
  lemma VictimIsLeastRecent(n: nat, moves: seq<nat>)
    requires n >= 1 && Below(moves, n)
    ensures var order := Replay(Up(0, n), moves);
      && |order| == n && Distinct(order) && Below(order, n)
      && forall v: nat :: v < n ==>
           LastUse(Down(n, n) + moves, order[n - 1]) <= LastUse(Down(n, n) + moves, v)
  {
    var history := Down(n, n) + moves;
    var order := Replay(Up(0, n), moves);
    CountingDown(n, n);
    assert history[..|Down(n, n)|] == Down(n, n) && history[|Down(n, n)|..] == moves;
    ReplayTracks(Up(0, n), history, |Down(n, n)|);
    RecencyOrders(history);
    DownLists(n, n);
    forall v: nat
      ensures v in history <==> v < n
    {
    }
    Complete(order, n);
    forall v: nat | v < n
      ensures LastUse(history, order[n - 1]) <= LastUse(history, v)
    {
      LeastRecent(history, v);
    }
  }

  /** A list of different numbers that are exactly those below `n` has length `n`. */
  lemma Complete(s: seq<nat>, n: nat)
    requires Distinct(s) && forall v: nat :: v in s <==> v < n
    ensures |s| == n && Below(s, n)
  {
    DistinctSize(s);
    assert Elements(s) == FirstN(n);
    forall i | 0 <= i < |s|
      ensures s[i] < n
    {
      assert s[i] in s;
    }
  }

  lemma {:induction false} DownLists(n: nat, k: nat)
    requires k <= n
    ensures forall v: nat :: v in Down(n, k) <==> n - k <= v < n
  {
    if k > 0 {
      DownLists(n, k - 1);
    }
  }

  /** The numbers from `n - 1` down to `n - k`. */
  ghost function Down(n: nat, k: nat): (s: seq<nat>)
    requires k <= n
  {
    if k == 0 then [] else Down(n, k - 1) + [n - k]
  }

  /** The numbers from `a` up to `n - 1`. */
  ghost function Up(a: nat, n: nat): (s: seq<nat>)
    requires a <= n
    ensures |s| == n - a && forall i :: 0 <= i < |s| ==> s[i] == a + i
    decreases n - a
  {
    if a == n then [] else [a] + Up(a + 1, n)
  }

  lemma {:induction false} CountingDown(n: nat, k: nat)
    requires k <= n
    ensures Tracks(Up(n - k, n), Down(n, k))
  {
    if k > 0 {
      CountingDown(n, k - 1);
      UpInFront(n, k);
      Recent(Up(n - k + 1, n), Down(n, k - 1), n - k);
    }
  }

  lemma UpInFront(n: nat, k: nat)
    requires 0 < k <= n
    ensures ToFront(Up(n - k + 1, n), n - k) == Up(n - k, n)
  {
    assert n - k !in Up(n - k + 1, n);
  }
}
