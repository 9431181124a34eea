/** The recursive passes themselves, over levels and colours kept in the modules. */
module ModulePasses {
  import opened Sequences
  import opened Modules

  // ---- Levels ----

  /** A path from an entry point to `m`. */
  ghost predicate EntryPath(g: Graph, entries: set<nat>, p: seq<nat>, m: nat) {
    Path(g, p) && p[0] in entries && p[|p| - 1] == m
  }

  /** A level that has been set is the length of some path from an entry point. */
  ghost predicate Justified(g: Graph, entries: set<nat>, level: seq<int>) {
    |level| == |g.lows| && forall m: nat {:trigger JustifiedAt(g, entries, level, m)} ::
      m < |level| ==> JustifiedAt(g, entries, level, m)
  }

  ghost predicate JustifiedAt(g: Graph, entries: set<nat>, level: seq<int>, m: nat)
    requires m < |level|
  {
    level[m] >= 0 && (level[m] > 0 ==> exists p :: EntryPath(g, entries, p, m) && |p| == level[m])
  }

  /** Below every module with a level, except those being worked on, levels are higher. */
  ghost predicate Settled(g: Graph, level: seq<int>, busy: set<nat>) {
    |level| == |g.lows| && forall m: nat {:trigger SettledAt(g, level, m)} ::
      m < |level| && m !in busy ==> SettledAt(g, level, m)
  }

  ghost predicate SettledAt(g: Graph, level: seq<int>, m: nat)
    requires m < |level|
  {
    level[m] > 0 ==> forall low: nat :: Under(g, m, low) && low < |level| ==> level[low] > level[m]
  }

  /** Levels only grow, and only where `m` leads. */
  ghost predicate Grows(g: Graph, before: seq<int>, after: seq<int>, m: nat) {
    |after| == |before| && forall x: nat {:trigger GrowsAt(g, before, after, m, x)} ::
      x < |before| ==> GrowsAt(g, before, after, m, x)
  }

  ghost predicate GrowsAt(g: Graph, before: seq<int>, after: seq<int>, m: nat, x: nat)
    requires x < |before| && x < |after|
  {
    before[x] <= after[x] && (after[x] != before[x] ==> Reaches(g, m, x))
  }

  /** Nothing being worked on lies where `m` leads. */
  ghost predicate Apart(g: Graph, busy: set<nat>, m: nat) {
    forall x :: x in busy ==> !Reaches(g, m, x)
  }

  lemma GrowsTrans(g: Graph, a: seq<int>, b: seq<int>, c: seq<int>, m: nat, low: nat)
    requires WellFormed(g) && Grows(g, a, b, m) && Grows(g, b, c, low) && Under(g, m, low)
    ensures Grows(g, a, c, m)
  {
    forall x: nat | x < |a|
      ensures GrowsAt(g, a, c, m, x)
    {
      assert GrowsAt(g, a, b, m, x) && GrowsAt(g, b, c, low, x);
      if c[x] != b[x] {
        ReachesThrough(g, m, low, x);
      }
    }
  }

  lemma ApartBelow(g: Graph, busy: set<nat>, m: nat, low: nat)
    requires AllAccepted(g) && Apart(g, busy, m) && Under(g, m, low)
    ensures Apart(g, busy + {m}, low)
  {
    AcceptedIsAcyclic(g, m, low);
    forall x | x in busy + {m}
      ensures !Reaches(g, low, x)
    {
      if Reaches(g, low, x) {
        ReachesThrough(g, m, low, x);
      }
    }
  }

  /** The levels are the lengths of the longest paths from the entry points. */
  ghost predicate LongestPaths(g: Graph, entries: set<nat>, level: seq<int>) {
    && |level| == |g.lows|
    && (forall m: nat, p :: m < |level| && EntryPath(g, entries, p, m) ==> |p| <= level[m])
    && (forall m: nat :: m < |level| && level[m] != 0 ==> exists p :: EntryPath(g, entries, p, m) && |p| == level[m])
  }

  /** When all modules are settled and all entry points have a level, levels are longest
      paths, and 0 exactly where no entry point leads. */
  lemma SettledIsLongest(g: Graph, entries: set<nat>, level: seq<int>)
    requires WellFormed(g) && Justified(g, entries, level) && Settled(g, level, {})
    requires forall e :: e in entries ==> e < |level| && level[e] >= 1
    ensures LongestPaths(g, entries, level)
  {
    forall m: nat, p | m < |level| && EntryPath(g, entries, p, m)
      ensures |p| <= level[m]
    {
      LevelCovers(g, entries, level, p);
    }
    forall m: nat | m < |level| && level[m] != 0
      ensures exists p :: EntryPath(g, entries, p, m) && |p| == level[m]
    {
      assert JustifiedAt(g, entries, level, m);
    }
  }

  lemma {:induction false} LevelCovers(g: Graph, entries: set<nat>, level: seq<int>, p: seq<nat>)
    requires WellFormed(g) && Settled(g, level, {}) && Path(g, p) && p[0] in entries
    requires forall e :: e in entries ==> e < |level| && level[e] >= 1
    ensures |p| <= level[p[|p| - 1]]
    decreases |p|
  {
    if |p| > 1 {
      var q := p[..|p| - 1];
      assert EdgeAt(g, p, |p| - 2);
      forall i: nat | i + 1 < |q|
        ensures EdgeAt(g, q, i)
      {
        assert EdgeAt(g, p, i);
      }
      LevelCovers(g, entries, level, q);
      assert SettledAt(g, level, p[|p| - 2]);
    }
  }

  // ---- Colours ----

  /** Below every module of the colour, except those being worked on, all have it. */
  ghost predicate Closed(g: Graph, color: seq<int>, c: int, busy: set<nat>) {
    |color| == |g.lows| && forall m: nat {:trigger ClosedAt(g, color, c, m)} ::
      m < |color| && m !in busy ==> ClosedAt(g, color, c, m)
  }

  ghost predicate ClosedAt(g: Graph, color: seq<int>, c: int, m: nat)
    requires m < |color|
  {
    color[m] == c ==> forall low: nat :: Under(g, m, low) && low < |color| ==> color[low] == c
  }

  /** The modules that one of the starting points reaches have the colour now, and all
      others are as before. */
  ghost predicate Coloured(g: Graph, before: seq<int>, after: seq<int>, c: int, starts: set<nat>) {
    |after| == |before| && forall x: nat {:trigger ColouredAt(g, before, after, c, starts, x)} ::
      x < |before| ==> ColouredAt(g, before, after, c, starts, x)
  }

  ghost predicate ColouredAt(g: Graph, before: seq<int>, after: seq<int>, c: int, starts: set<nat>, x: nat)
    requires x < |before| && x < |after|
  {
    after[x] == if exists s :: s in starts && Reaches(g, s, x) then c else before[x]
  }

  lemma NoneColoured(g: Graph, color: seq<int>, c: int)
    ensures Coloured(g, color, color, c, {})
  {
    forall x: nat | x < |color|
      ensures ColouredAt(g, color, color, c, {}, x)
    {
    }
  }

  lemma MoreColoured(g: Graph, a: seq<int>, b: seq<int>, d: seq<int>, c: int, starts: set<nat>, s: nat)
    requires Coloured(g, a, b, c, starts) && Coloured(g, b, d, c, {s})
    ensures Coloured(g, a, d, c, starts + {s})
  {
    forall x: nat | x < |a|
      ensures ColouredAt(g, a, d, c, starts + {s}, x)
    {
      assert ColouredAt(g, a, b, c, starts, x) && ColouredAt(g, b, d, c, {s}, x);
      assert s in {s};
      assert (exists t :: t in starts + {s} && Reaches(g, t, x)) <==>
             (exists t :: t in starts && Reaches(g, t, x)) || Reaches(g, s, x);
    }
  }

  /** A coloured module has coloured everything that it reaches. */
  lemma {:induction false} ClosedPath(g: Graph, color: seq<int>, c: int, busy: set<nat>, m: nat, p: seq<nat>)
    requires WellFormed(g) && Closed(g, color, c, busy) && Apart(g, busy, m)
    requires Path(g, p) && p[0] == m && color[m] == c
    ensures color[p[|p| - 1]] == c
    decreases |p|
  {
    if |p| > 1 {
      Split(g, p);
      ReachesItself(g, m);
      assert m !in busy && ClosedAt(g, color, c, m);
      forall x | x in busy
        ensures !Reaches(g, p[1], x)
      {
        if Reaches(g, p[1], x) {
          ReachesThrough(g, m, p[1], x);
        }
      }
      ClosedPath(g, color, c, busy, p[1], p[1..]);
    }
  }

  lemma AlreadyColoured(g: Graph, color: seq<int>, c: int, busy: set<nat>, m: nat)
    requires WellFormed(g) && Closed(g, color, c, busy) && Apart(g, busy, m) && m < |color| && color[m] == c
    ensures Coloured(g, color, color, c, {m})
  {
    forall x: nat | x < |color|
      ensures ColouredAt(g, color, color, c, {m}, x)
    {
      if Reaches(g, m, x) {
        var p :| PathFrom(g, p, m, x);
        ClosedPath(g, color, c, busy, m, p);
      }
    }
  }

  /** After the module itself and all modules below it, everything it reaches has the
      colour. */
  lemma AllBelowColoured(g: Graph, before: seq<int>, now: seq<int>, after: seq<int>, c: int, m: nat, busy: set<nat>)
    requires WellFormed(g) && m < |g.lows| == |before| && now == before[m := c]
    requires Coloured(g, now, after, c, Elements(g.lows[m])) && Closed(g, after, c, busy + {m})
    ensures Coloured(g, before, after, c, {m}) && Closed(g, after, c, busy)
  {
    ReachesItself(g, m);
    forall x: nat | x < |before|
      ensures ColouredAt(g, before, after, c, {m}, x)
    {
      assert ColouredAt(g, now, after, c, Elements(g.lows[m]), x);
      if Reaches(g, m, x) && x != m {
        var low := ReachesOn(g, m, x);
        assert low in Elements(g.lows[m]);
      } else if s :| s in Elements(g.lows[m]) && Reaches(g, s, x) {
        assert Under(g, m, s);
        ReachesThrough(g, m, s, x);
      }
    }
    forall x: nat | x < |after| && x !in busy
      ensures ClosedAt(g, after, c, x)
    {
      if x != m {
        assert ClosedAt(g, after, c, x);
      } else {
        forall low: nat | Under(g, m, low) && low < |after|
          ensures after[low] == c
        {
          ReachesItself(g, low);
          assert low in Elements(g.lows[m]) && ColouredAt(g, now, after, c, Elements(g.lows[m]), low);
        }
      }
    }
  }

  lemma ColourSet(g: Graph, before: seq<int>, m: nat, c: int, busy: set<nat>)
    requires m < |before| && Closed(g, before, c, busy)
    ensures Closed(g, before[m := c], c, busy + {m})
  {
    forall x: nat | x < |before| && x !in busy + {m}
      ensures ClosedAt(g, before[m := c], c, x)
    {
      assert ClosedAt(g, before, c, x);
    }
  }

  class Passes {
    const g: Graph
    const level: array<int>
    const color: array<int>

    ghost predicate Valid() {
      WellFormed(g) && level.Length == |g.lows| && color.Length == |g.lows| && level != color
    }

    constructor (g: Graph)
      requires WellFormed(g)
      ensures this.g == g && Valid() && fresh(level) && fresh(color)
      ensures forall m :: 0 <= m < level.Length ==> level[m] == 0 && color[m] == 0
    {
      this.g := g;
      level := new int[|g.lows|](_ => 0);
      color := new int[|g.lows|](_ => 0);
    }

    /** Check the route from a module down to main memory. */
    method CheckRoute(m: nat, size: nat, lvl: nat) returns (ok: bool)
      requires WellFormed(g) && m < |g.lows|
      ensures ok == Accepted(g, m, size, lvl)
      decreases MAX + 1 - lvl
    {
      if lvl > MAX || g.blockSize[m] < size || (g.lows[m] == [] && g.isCache[m]) {
        return false;
      }
      for i := 0 to |g.lows[m]|
        invariant forall j :: 0 <= j < i ==> Accepted(g, g.lows[m][j], g.blockSize[m], lvl + 1)
      {
        ok := CheckRoute(g.lows[m][i], g.blockSize[m], lvl + 1);
        if !ok {
          return;
        }
      }
      ok := true;
    }

    /** Give a module at least this level, and the modules below it higher ones. */
    method SetLevel(m: nat, lvl: nat, ghost entries: set<nat>, ghost p: seq<nat>, ghost busy: set<nat>)
      requires Valid() && AllAccepted(g) && m < |g.lows|
      requires EntryPath(g, entries, p, m) && |p| == lvl
      requires Justified(g, entries, level[..]) && Settled(g, level[..], busy) && Apart(g, busy, m)
      modifies level
      ensures Justified(g, entries, level[..]) && Settled(g, level[..], busy)
      ensures Grows(g, old(level[..]), level[..], m) && level[m] >= lvl
      decreases MAX + 1 - lvl
    {
      PathBounded(g, p);
      NotGrown(g, level[..], m);
      if level[m] >= lvl {
        return;
      }
      ghost var before := level[..];
      level[m] := lvl;
      LevelSet(g, entries, before, level[..], m, lvl, p, busy);
      for i := 0 to |g.lows[m]|
        invariant Justified(g, entries, level[..]) && Settled(g, level[..], busy + {m})
        invariant Grows(g, before, level[..], m) && level[m] == lvl
        invariant forall j :: 0 <= j < i ==> level[g.lows[m][j]] > lvl
      {
        var low := g.lows[m][i];
        ghost var now := level[..];
        Append(g, p, low);
        ApartBelow(g, busy, m, low);
        SetLevel(low, lvl + 1, entries, p + [low], busy + {m});
        GrowsTrans(g, before, now, level[..], m, low);
        AcceptedIsAcyclic(g, m, low);
        assert GrowsAt(g, now, level[..], low, m);
        forall j | 0 <= j <= i
          ensures level[g.lows[m][j]] > lvl
        {
          assert GrowsAt(g, now, level[..], low, g.lows[m][j]);
        }
      }
      NowSettled(g, level[..], m, busy);
    }

    /** The levels of all modules, from the entry points. */
    method CalculateLevels(entries: seq<nat>)
      requires Valid() && AllAccepted(g) && Below(entries, |g.lows|)
      requires forall m :: 0 <= m < level.Length ==> level[m] == 0
      modifies level
      ensures LongestPaths(g, Elements(entries), level[..])
    {
      ghost var all := Elements(entries);
      FreshLevels(g, all, level[..]);
      for i := 0 to |entries|
        invariant Justified(g, all, level[..]) && Settled(g, level[..], {})
        invariant forall j :: 0 <= j < i ==> level[entries[j]] >= 1
      {
        ghost var now := level[..];
        assert EntryPath(g, all, [entries[i]], entries[i]);
        SetLevel(entries[i], 1, all, [entries[i]], {});
        forall j | 0 <= j < i
          ensures level[entries[j]] >= 1
        {
          assert GrowsAt(g, now, level[..], entries[i], entries[j]);
        }
      }
      SettledIsLongest(g, all, level[..]);
    }
  
    /** Give a module and all modules that it reaches a colour. */
    method SetColor(m: nat, c: int, ghost p: seq<nat>, ghost busy: set<nat>)
      requires Valid() && AllAccepted(g) && m < |g.lows| && Path(g, p) && p[|p| - 1] == m
      requires Closed(g, color[..], c, busy) && Apart(g, busy, m)
      modifies color
      ensures Coloured(g, old(color[..]), color[..], c, {m}) && Closed(g, color[..], c, busy)
      decreases MAX + 1 - |p|
    {
      PathBounded(g, p);
      if color[m] == c {
        AlreadyColoured(g, color[..], c, busy, m);
        return;
      }
      ghost var before := color[..];
      color[m] := c;
      ghost var now := color[..];
      assert now == before[m := c];
      ColourSet(g, before, m, c, busy);
      NoneColoured(g, now, c);
      assert Elements(g.lows[m][..0]) == {};
      for i := 0 to |g.lows[m]|
        invariant Coloured(g, now, color[..], c, Elements(g.lows[m][..i]))
        invariant Closed(g, color[..], c, busy + {m})
      {
        var low := g.lows[m][i];
        ghost var last := color[..];
        Append(g, p, low);
        ApartBelow(g, busy, m, low);
        SetColor(low, c, p + [low], busy + {m});
        MoreColoured(g, now, last, color[..], c, Elements(g.lows[m][..i]), low);
        assert g.lows[m][..i + 1] == g.lows[m][..i] + [low];
        assert Elements(g.lows[m][..i + 1]) == Elements(g.lows[m][..i]) + {low};
      }
      assert g.lows[m][..|g.lows[m]|] == g.lows[m];
      AllBelowColoured(g, before, now, color[..], c, m, busy);
    }

    /** Does the module reach one of the colour? */
    method CheckColor(m: nat, c: int, ghost p: seq<nat>) returns (yes: bool)
      requires Valid() && AllAccepted(g) && m < |g.lows| && Path(g, p) && p[|p| - 1] == m
      ensures yes <==> exists x :: 0 <= x < color.Length && color[x] == c && Reaches(g, m, x)
      decreases MAX + 1 - |p|
    {
      PathBounded(g, p);
      ReachesItself(g, m);
      if color[m] == c {
        return true;
      }
      for i := 0 to |g.lows[m]|
        invariant forall j :: 0 <= j < i ==> ReachesNone(g, color[..], g.lows[m][j], c)
      {
        var low := g.lows[m][i];
        Append(g, p, low);
        yes := CheckColor(low, c, p + [low]);
        if yes {
          ghost var x :| 0 <= x < color.Length && color[x] == c && Reaches(g, low, x);
          ReachesThrough(g, m, low, x);
          return;
        }
      }
      yes := false;
      NoneBelow(g, color[..], m, c);
    }

    /** Is no module reached from entry points of both kinds? There is nothing to check
        unless both sides are simulated in detail. */
    method CheckDisjoint(cpu: seq<nat>, gpu: seq<nat>, cpuDetailed: bool, gpuDetailed: bool) returns (ok: bool)
      requires Valid() && AllAccepted(g) && Below(cpu, |g.lows|) && Below(gpu, |g.lows|)
      requires forall m :: 0 <= m < color.Length ==> color[m] == 0
      modifies color
      ensures ok <==> cpuDetailed && gpuDetailed ==>
        !exists a: nat, b: nat, x: nat :: a in cpu && b in gpu && Reaches(g, a, x) && Reaches(g, b, x)
    {
      if !cpuDetailed || !gpuDetailed {
        return true;
      }
      ghost var fresh0 := color[..];
      FreshColours(g, fresh0);
      NoneColoured(g, fresh0, 1);
      assert Elements(cpu[..0]) == {};
      for i := 0 to |cpu|
        invariant Coloured(g, fresh0, color[..], 1, Elements(cpu[..i])) && Closed(g, color[..], 1, {})
      {
        ghost var last := color[..];
        assert Path(g, [cpu[i]]);
        SetColor(cpu[i], 1, [cpu[i]], {});
        MoreColoured(g, fresh0, last, color[..], 1, Elements(cpu[..i]), cpu[i]);
        assert cpu[..i + 1] == cpu[..i] + [cpu[i]];
        assert Elements(cpu[..i + 1]) == Elements(cpu[..i]) + {cpu[i]};
      }
      assert cpu[..|cpu|] == cpu;
      ghost var done := color[..];
      for i := 0 to |gpu|
        invariant color[..] == done
        invariant forall j :: 0 <= j < i ==> ReachesNone(g, color[..], gpu[j], 1)
      {
        assert Path(g, [gpu[i]]);
        var shared := CheckColor(gpu[i], 1, [gpu[i]]);
        if shared {
          ghost var x: nat :| x < color.Length && color[x] == 1 && Reaches(g, gpu[i], x);
          assert ColouredAt(g, fresh0, color[..], 1, Elements(cpu), x);
          ghost var a :| a in Elements(cpu) && Reaches(g, a, x);
          assert a in cpu && gpu[i] in gpu;
          return false;
        }
      }
      ok := true;
      ColoursApart(g, fresh0, color[..], cpu, gpu);
    }
  }

  ghost predicate ReachesNone(g: Graph, color: seq<int>, m: nat, c: int) {
    forall x: nat :: x < |color| && color[x] == c ==> !Reaches(g, m, x)
  }

  lemma NoneBelow(g: Graph, color: seq<int>, m: nat, c: int)
    requires WellFormed(g) && m < |g.lows| && m < |color| && color[m] != c
    requires forall low: nat :: Under(g, m, low) ==> ReachesNone(g, color, low, c)
    ensures ReachesNone(g, color, m, c)
  {
    forall x: nat | x < |color| && color[x] == c
      ensures !Reaches(g, m, x)
    {
      if Reaches(g, m, x) {
        var low := ReachesOn(g, m, x);
      }
    }
  }

  lemma FreshColours(g: Graph, color: seq<int>)
    requires |color| == |g.lows| && forall m :: 0 <= m < |color| ==> color[m] == 0
    ensures Closed(g, color, 1, {})
  {
    forall m: nat | m < |color|
      ensures ClosedAt(g, color, 1, m)
    {
    }
  }

  lemma ColoursApart(g: Graph, before: seq<int>, after: seq<int>, cpu: seq<nat>, gpu: seq<nat>)
    requires Coloured(g, before, after, 1, Elements(cpu)) && |after| == |g.lows|
    requires forall j :: 0 <= j < |gpu| ==> ReachesNone(g, after, gpu[j], 1)
    ensures !exists a: nat, b: nat, x: nat :: a in cpu && b in gpu && Reaches(g, a, x) && Reaches(g, b, x)
  {
    forall a: nat, b: nat, x: nat | a in cpu && b in gpu && Reaches(g, a, x)
      ensures !Reaches(g, b, x)
    {
      var p :| PathFrom(g, p, a, x);
      assert x < |after| && a in Elements(cpu) && ColouredAt(g, before, after, 1, Elements(cpu), x);
      var j :| 0 <= j < |gpu| && gpu[j] == b;
      assert ReachesNone(g, after, gpu[j], 1);
    }
  }

  lemma FreshLevels(g: Graph, entries: set<nat>, level: seq<int>)
    requires |level| == |g.lows| && forall m :: 0 <= m < |level| ==> level[m] == 0
    ensures Justified(g, entries, level) && Settled(g, level, {})
  {
    forall m: nat | m < |level|
      ensures JustifiedAt(g, entries, level, m) && SettledAt(g, level, m)
    {
    }
  }

  lemma PathBounded(g: Graph, p: seq<nat>)
    requires AllAccepted(g) && Path(g, p)
    ensures |p| <= MAX
  {
    AcceptedPath(g, p[0], g.blockSize[p[0]], 1, p);
  }

  lemma NotGrown(g: Graph, level: seq<int>, m: nat)
    ensures Grows(g, level, level, m)
  {
    forall x: nat | x < |level|
      ensures GrowsAt(g, level, level, m, x)
    {
    }
  }

  lemma LevelSet(g: Graph, entries: set<nat>, before: seq<int>, after: seq<int>, m: nat, lvl: nat, p: seq<nat>, busy: set<nat>)
    requires WellFormed(g) && m < |g.lows| && Justified(g, entries, before) && Settled(g, before, busy)
    requires after == before[m := lvl] && before[m] < lvl
    requires EntryPath(g, entries, p, m) && |p| == lvl
    ensures Justified(g, entries, after) && Settled(g, after, busy + {m}) && Grows(g, before, after, m)
  {
    ReachesItself(g, m);
    forall x: nat | x < |after|
      ensures JustifiedAt(g, entries, after, x) && GrowsAt(g, before, after, m, x)
    {
      assert JustifiedAt(g, entries, before, x);
    }
    forall x: nat | x < |after| && x !in busy + {m}
      ensures SettledAt(g, after, x)
    {
      assert SettledAt(g, before, x);
    }
  }

  lemma NowSettled(g: Graph, level: seq<int>, m: nat, busy: set<nat>)
    requires WellFormed(g) && m < |g.lows| && Settled(g, level, busy + {m})
    requires forall j :: 0 <= j < |g.lows[m]| ==> level[g.lows[m][j]] > level[m]
    ensures Settled(g, level, busy)
  {
    forall x: nat | x < |level| && x !in busy
      ensures SettledAt(g, level, x)
    {
      assert x != m ==> SettledAt(g, level, x);
    }
  }
}
