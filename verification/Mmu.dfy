/** Address translation (mmu.c): virtual pages of all address spaces get physical frames
    in the order in which they are first touched. */
module Mmu {
  import MemoryImage

  datatype Kind = ReadAccess | WriteAccess | ExecuteAccess

  /** A virtual page: its address space and the address of its first byte. */
  datatype Key = Key(space: int, tag: nat)

  datatype MmuPage = MmuPage(key: Key, frame: nat, numReads: nat, numWrites: nat, numExecutes: nat)

  function PageStart(size: nat, a: nat): nat
    requires size > 0
  {
    a - a % size
  }

  /** The physical address of the page at position `i` of the list, in 32 bits. */
  function FrameAt(size: nat, i: nat): nat {
    (i * size) % MemoryImage.SPACE
  }

  /** The list holds every page of the table at its position, with its frame. */
  ghost predicate Pages(size: nat, list: seq<MmuPage>, table: map<Key, nat>) {
    && size > 0
    && (forall k :: k in table ==> table[k] < |list| && list[table[k]].key == k)
    && (forall i :: 0 <= i < |list| ==> PageAt(size, list, table, i))
  }

  ghost predicate PageAt(size: nat, list: seq<MmuPage>, table: map<Key, nat>, i: nat)
    requires size > 0 && i < |list|
  {
    && list[i].key in table && table[list[i].key] == i
    && list[i].frame == FrameAt(size, i)
    && list[i].key.tag % size == 0
  }

  /** The translation of an address whose page is in the table. */
  function Translation(size: nat, list: seq<MmuPage>, table: map<Key, nat>, space: int, a: nat): nat
    requires size > 0 && Key(space, PageStart(size, a)) in table && table[Key(space, PageStart(size, a))] < |list|
  {
    list[table[Key(space, PageStart(size, a))]].frame + a % size
  }

  predicate Mapped(size: nat, list: seq<MmuPage>, table: map<Key, nat>, space: int, a: nat)
    requires size > 0
  {
    Key(space, PageStart(size, a)) in table && table[Key(space, PageStart(size, a))] < |list|
  }

  /** As many pages as fit in 32 bits of physical addresses. */
  predicate FitsIn32(size: nat, list: seq<MmuPage>) {
    |list| * size <= MemoryImage.SPACE
  }

  lemma {:induction false} RowBound(size: nat, i: nat, n: nat)
    requires i < n
    ensures i * size + size <= n * size
    decreases n
  {
    if i + 1 < n {
      RowBound(size, i, n - 1);
    }
  }

  /** While the pages fit, frames are dense: position and offset can be read off. */
  lemma FrameOfAddress(size: nat, n: nat, i: nat, o: nat)
    requires size > 0 && i < n && n * size <= MemoryImage.SPACE && o < size
    ensures FrameAt(size, i) == i * size
    ensures (FrameAt(size, i) + o) / size == i && (FrameAt(size, i) + o) % size == o
  {
    RowBound(size, i, n);
    Divide(size, i, o);
  }

  lemma {:induction false} Divide(size: nat, i: nat, o: nat)
    requires o < size
    ensures (i * size + o) / size == i && (i * size + o) % size == o
  {
    var q, r := (i * size + o) / size, (i * size + o) % size;
    assert i * size + o == q * size + r;
    if q < i {
      RowBound(size, q, i);
    } else if i < q {
      RowBound(size, i, q);
    }
  }

  /** Translation keeps page offsets, and different bytes of different pages or address
      spaces never share a physical address, as long as the pages fit in 32 bits. */
  lemma TranslationIsInjective(size: nat, list: seq<MmuPage>, table: map<Key, nat>, s: int, a: nat, t: int, b: nat)
    requires Pages(size, list, table) && FitsIn32(size, list)
    requires Mapped(size, list, table, s, a) && Mapped(size, list, table, t, b)
    ensures Translation(size, list, table, s, a) % size == a % size
    ensures Translation(size, list, table, s, a) == Translation(size, list, table, t, b) ==> s == t && a == b
  {
    var i, j := table[Key(s, PageStart(size, a))], table[Key(t, PageStart(size, b))];
    assert PageAt(size, list, table, i) && PageAt(size, list, table, j);
    FrameOfAddress(size, |list|, i, a % size);
    FrameOfAddress(size, |list|, j, b % size);
  }

  /** Beyond that the frame number wraps round: the first page that does not fit shares
      the frame of page 0. */
  lemma FramesWrap(size: nat, list: seq<MmuPage>, table: map<Key, nat>)
    requires Pages(size, list, table) && MemoryImage.SPACE % size == 0 && |list| > MemoryImage.SPACE / size
    ensures MemoryImage.SPACE / size > 0
    ensures var n := MemoryImage.SPACE / size; list[n].key != list[0].key && list[n].frame == list[0].frame
  {
    var n := MemoryImage.SPACE / size;
    assert n * size == MemoryImage.SPACE;
    assert PageAt(size, list, table, n) && PageAt(size, list, table, 0);
  }

  /** So translation is injective over pages exactly as long as the pages fit. */
  lemma InjectiveExactly(size: nat, list: seq<MmuPage>, table: map<Key, nat>)
    requires Pages(size, list, table) && MemoryImage.SPACE % size == 0
    ensures FitsIn32(size, list) <==>
      forall i, j :: 0 <= i < j < |list| ==> list[i].frame != list[j].frame
  {
    var n := MemoryImage.SPACE / size;
    assert n * size == MemoryImage.SPACE;
    if |list| <= n {
      Rows(size, |list|, n);
      forall i, j | 0 <= i < j < |list|
        ensures list[i].frame != list[j].frame
      {
        assert PageAt(size, list, table, i) && PageAt(size, list, table, j);
        FrameOfAddress(size, |list|, i, 0);
        FrameOfAddress(size, |list|, j, 0);
      }
    } else {
      FramesWrap(size, list, table);
      RowBound(size, n, |list|);
    }
  }

  lemma Rows(size: nat, a: nat, b: nat)
    requires a <= b
    ensures a * size <= b * size
  {
    if a < b {
      RowBound(size, a, b);
    }
  }

  /** The page that an access to a translated address charges is the one that
      translation chose. */
  lemma ChargesTranslatedPage(size: nat, list: seq<MmuPage>, table: map<Key, nat>, space: int, a: nat)
    requires Pages(size, list, table) && FitsIn32(size, list) && Mapped(size, list, table, space, a)
    ensures Translation(size, list, table, space, a) / size == table[Key(space, PageStart(size, a))]
  {
    var i := table[Key(space, PageStart(size, a))];
    assert PageAt(size, list, table, i);
    FrameOfAddress(size, |list|, i, a % size);
  }

  class Unit {
    const size: nat
    var list: seq<MmuPage>
    var table: map<Key, nat>

    ghost predicate Valid()
      reads this
    {
      Pages(size, list, table)
    }

    constructor (size: nat)
      requires size > 0
      ensures Valid() && this.size == size && list == [] && table == map[]
    {
      this.size := size;
      list := [];
      table := map[];
    }

    /** The position of a virtual page, which is added to the list at its first use. */
    method GetPage(space: int, a: nat) returns (i: nat)
      requires Valid() && a < MemoryImage.SPACE
      modifies this
      ensures Valid() && Mapped(size, list, table, space, a) && i == table[Key(space, PageStart(size, a))]
      ensures if Key(space, PageStart(size, a)) in old(table) then list == old(list) && table == old(table)
              else i == |old(list)| && list[..i] == old(list) && |list| == i + 1
                   && table == old(table)[Key(space, PageStart(size, a)) := i]
                   && list[i] == MmuPage(Key(space, PageStart(size, a)), FrameAt(size, i), 0, 0, 0)
    {
      var key := Key(space, PageStart(size, a));
      if key in table {
        return table[key];
      }
      i := |list|;
      ghost var before, known := list, table;
      list := list + [MmuPage(key, FrameAt(size, i), 0, 0, 0)];
      table := table[key := i];
      TagAligned(size, a);
      forall j | 0 <= j < |list|
        ensures PageAt(size, list, table, j)
      {
        assert j < i ==> PageAt(size, before, known, j);
      }
    }

    /** Translate an address; what was translated before keeps its translation. */
    method Translate(space: int, a: nat) returns (p: nat)
      requires Valid() && a < MemoryImage.SPACE
      modifies this
      ensures Valid() && Mapped(size, list, table, space, a) && p == Translation(size, list, table, space, a)
      ensures forall s, b :: old(Mapped(size, list, table, s, b)) ==>
        Mapped(size, list, table, s, b) && Translation(size, list, table, s, b) == old(Translation(size, list, table, s, b))
    {
      ghost var before, known := list, table;
      var i := GetPage(space, a);
      p := list[i].frame + a % size;
      forall k | k in known
        ensures k in table && table[k] == known[k] && list[table[k]] == before[known[k]]
      {
        assert before == list[..|before|];
      }
    }

    /** Count an access to a physical address, if there is such a page. */
    method AccessPage(p: nat, kind: Kind)
      requires Valid()
      modifies this
      ensures Valid() && table == old(table) && |list| == |old(list)|
      ensures forall i :: 0 <= i < |list| ==> list[i].key == old(list)[i].key && list[i].frame == old(list)[i].frame
      ensures forall i :: 0 <= i < |list| && i != p / size ==> list[i] == old(list)[i]
      ensures p / size < |list| ==>
        var was, now := old(list)[p / size], list[p / size];
        now == match kind
              case ReadAccess => was.(numReads := was.numReads + 1)
              case WriteAccess => was.(numWrites := was.numWrites + 1)
              case ExecuteAccess => was.(numExecutes := was.numExecutes + 1)
    {
      var i := p / size;
      if i >= |list| {
        return;
      }
      Charge(i, match kind
                case ReadAccess => list[i].(numReads := list[i].numReads + 1)
                case WriteAccess => list[i].(numWrites := list[i].numWrites + 1)
                case ExecuteAccess => list[i].(numExecutes := list[i].numExecutes + 1));
    }

    method Charge(i: nat, page: MmuPage)
      requires Valid() && i < |list| && page.key == list[i].key && page.frame == list[i].frame
      modifies this`list
      ensures Valid() && list == old(list)[i := page]
    {
      ghost var before := list;
      list := list[i := page];
      forall j | 0 <= j < |list|
        ensures PageAt(size, list, table, j)
      {
        assert PageAt(size, before, table, j);
      }
    }
  }

  lemma TagAligned(size: nat, a: nat)
    requires size > 0
    ensures PageStart(size, a) % size == 0
  {
    var q := a / size;
    assert a - a % size == q * size + 0;
    Divide(size, q, 0);
  }
}
