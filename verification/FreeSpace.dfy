/** The search for runs of unmapped pages, upwards and downwards. */
module FreeSpace {
  import opened MemoryImage

  /** No page of the range is mapped. */
  ghost predicate FreeRun(mapped: set<nat>, start: nat, size: nat) {
    forall t: nat :: t in mapped && t % PAGE == 0 ==> !(start <= t < start + size)
  }

  predicate Aligned(a: nat) {
    a % PAGE == 0
  }

  lemma NotFree(mapped: set<nat>, t: nat, s: nat, size: nat)
    requires Aligned(t) && t in mapped && s <= t < s + size
    ensures !FreeRun(mapped, s, size)
  {
  }

  // ---- Upwards ----

  /** A place for the run, at or above `a` and within the address space. */
  predicate Fits(a: nat, size: nat, s: nat) {
    a <= s && Aligned(s) && s + size <= SPACE
  }

  /** No place below `limit` is free. */
  ghost predicate NoneBelow(mapped: set<nat>, a: nat, size: nat, limit: nat) {
    forall s: nat :: Fits(a, size, s) && s < limit ==> !FreeRun(mapped, s, size)
  }

  /** The lowest free place. */
  ghost predicate Lowest(mapped: set<nat>, a: nat, size: nat, start: nat) {
    Fits(a, size, start) && FreeRun(mapped, start, size) && NoneBelow(mapped, a, size, start)
  }

  /** The search has come to `end`; the pages from `start` on are free so far. */
  ghost predicate Rising(mapped: set<nat>, a: nat, size: nat, start: nat, end: nat) {
    && Aligned(size) && Aligned(start) && Aligned(end)
    && a <= start <= end <= SPACE && end - start < size
    && FreeRun(mapped, start, end - start)
    && NoneBelow(mapped, a, size, start)
  }

  lemma RiseStart(mapped: set<nat>, a: nat, size: nat)
    requires Aligned(a) && a < SPACE && Aligned(size) && size > 0
    ensures Rising(mapped, a, size, a, a)
  {
  }

  lemma RiseFull(mapped: set<nat>, a: nat, size: nat, start: nat)
    requires Rising(mapped, a, size, start, SPACE)
    ensures NoneBelow(mapped, a, size, SPACE)
  {
  }

  lemma RiseMapped(mapped: set<nat>, a: nat, size: nat, start: nat, end: nat)
    requires Rising(mapped, a, size, start, end) && end < SPACE && end in mapped
    ensures Rising(mapped, a, size, end + PAGE, end + PAGE)
  {
    AlignedNext(end);
    forall s: nat | Fits(a, size, s) && s < end + PAGE
      ensures !FreeRun(mapped, s, size)
    {
      if s >= start {
        AlignedBelow(s, end);
        AlignedGap(start, end, size);
        NotFree(mapped, end, s, size);
      }
    }
  }

  lemma RiseFree(mapped: set<nat>, a: nat, size: nat, start: nat, end: nat)
    requires Rising(mapped, a, size, start, end) && end < SPACE && end !in mapped
    ensures end - start + PAGE <= size
    ensures if end - start + PAGE == size then Lowest(mapped, a, size, start)
            else Rising(mapped, a, size, start, end + PAGE)
  {
    AlignedNext(end);
    AlignedGap(start, end, size);
    forall t: nat | t in mapped && Aligned(t)
      ensures !(start <= t < start + (end - start + PAGE))
    {
      if end <= t < end + PAGE {
        AlignedBelow(t, end);
      }
    }
  }

  lemma AlignedNext(a: nat)
    requires Aligned(a)
    ensures Aligned(a + PAGE) && (a < SPACE ==> a + PAGE <= SPACE)
  {
  }

  /** Between two neighbouring pages there is no third. */
  lemma AlignedBelow(s: nat, end: nat)
    requires Aligned(s) && Aligned(end) && s < end + PAGE
    ensures s <= end
  {
  }

  lemma AlignedGap(start: nat, end: nat, size: nat)
    requires Aligned(start) && Aligned(end) && Aligned(size) && start <= end && end - start < size
    ensures end - start + PAGE <= size
  {
  }

  // ---- Downwards ----

  /** A place for the run, above address zero and with its last page at most at `a`. */
  predicate FitsBelow(a: nat, size: nat, s: nat) {
    0 < s && Aligned(s) && s + size <= a + PAGE
  }

  /** No place whose last page lies above `limit` is free. */
  ghost predicate NoneAbove(mapped: set<nat>, a: nat, size: nat, limit: nat) {
    forall s: nat :: FitsBelow(a, size, s) && s + size > limit + PAGE ==> !FreeRun(mapped, s, size)
  }

  ghost predicate Highest(mapped: set<nat>, a: nat, size: nat, start: nat) {
    FitsBelow(a, size, start) && FreeRun(mapped, start, size)
    && forall s: nat :: FitsBelow(a, size, s) && s > start ==> !FreeRun(mapped, s, size)
  }

  /** The search has come down to `start`; the pages after it up to `end` are free. */
  ghost predicate Falling(mapped: set<nat>, a: nat, size: nat, start: nat, end: nat) {
    && Aligned(size) && Aligned(start) && Aligned(end)
    && start <= end <= a && end - start < size
    && FreeRun(mapped, start + PAGE, end - start)
    && NoneAbove(mapped, a, size, end)
  }

  lemma FallStart(mapped: set<nat>, a: nat, size: nat)
    requires Aligned(a) && Aligned(size) && size > 0
    ensures Falling(mapped, a, size, a, a)
  {
  }

  lemma FallEmpty(mapped: set<nat>, a: nat, size: nat, end: nat)
    requires Falling(mapped, a, size, 0, end)
    ensures forall s: nat :: FitsBelow(a, size, s) ==> !FreeRun(mapped, s, size)
  {
    AlignedGap(0, end, size);
    forall s: nat | FitsBelow(a, size, s)
      ensures !FreeRun(mapped, s, size)
    {
    }
  }

  lemma FallMapped(mapped: set<nat>, a: nat, size: nat, start: nat, end: nat)
    requires Falling(mapped, a, size, start, end) && start > 0 && start in mapped
    ensures start >= PAGE && Falling(mapped, a, size, start - PAGE, start - PAGE)
  {
    AlignedBelow(PAGE, start);
    AlignedGap(start, end, size);
    forall s: nat | FitsBelow(a, size, s) && s + size > start
      ensures !FreeRun(mapped, s, size)
    {
      if s + size <= end + PAGE {
        NotFree(mapped, start, s, size);
      }
    }
  }

  lemma FallFree(mapped: set<nat>, a: nat, size: nat, start: nat, end: nat)
    requires Falling(mapped, a, size, start, end) && start > 0 && start !in mapped
    ensures start >= PAGE && end - start + PAGE <= size
    ensures if end - start + PAGE == size then Highest(mapped, a, size, start)
            else Falling(mapped, a, size, start - PAGE, end)
  {
    AlignedBelow(PAGE, start);
    AlignedGap(start, end, size);
    forall t: nat | t in mapped && Aligned(t)
      ensures !(start <= t < start + (end - start + PAGE))
    {
      if start <= t < start + PAGE {
        AlignedBelow(t, start);
      }
    }
  }
}
