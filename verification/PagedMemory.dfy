/** Paged memory (memory.c): a hash table of linked lists of pages, relinked on every
    lookup, refines an image, and accesses across pages refine its flat view. */
module PagedMemory {
  import opened Sequences
  import opened MemoryImage
  import opened FreeSpace

  const COUNT: nat := 1024

  function Index(a: nat): (i: nat)
    ensures i < COUNT
  {
    (a / PAGE) % COUNT
  }

  lemma IndexOfTag(a: nat)
    ensures Index(TagOf(a)) == Index(a)
  {
    assert TagOf(a) / PAGE == a / PAGE;
  }

  class PageNode {
    const tag: nat
    var perm: set<Access>
    var next: PageNode?
    /** Empty until something is written. */
    var data: seq<byte>

    constructor (tag: nat, perm: set<Access>, next: PageNode?)
      ensures this.tag == tag && this.perm == perm && this.next == next && data == []
    {
      this.tag := tag;
      this.perm := perm;
      this.next := next;
      data := [];
    }

    ghost function View(): Page
      reads this`perm, this`data
    {
      Page(perm, if data == [] then Zeros(PAGE) else data)
    }
  }

  // ---- One list of pages ----

  function At(nodes: seq<PageNode>, j: nat): PageNode? {
    if j < |nodes| then nodes[j] else null
  }

  ghost predicate Follows(nodes: seq<PageNode>, j: nat)
    requires j < |nodes|
    reads nodes`next
  {
    nodes[j].next == At(nodes, j + 1)
  }

  /** The list that starts at `first` consists of `nodes`. */
  ghost predicate Linked(first: PageNode?, nodes: seq<PageNode>)
    reads nodes`next
  {
    first == At(nodes, 0) && forall j: nat {:trigger Follows(nodes, j)} :: j < |nodes| ==> Follows(nodes, j)
  }

  /** Take the `j`-th page out of the list and put it in front. */
  method MoveToFront(first: PageNode, prev: PageNode, page: PageNode, ghost nodes: seq<PageNode>, ghost j: nat)
    requires Distinct(nodes) && Linked(first, nodes)
    requires 0 < j < |nodes| && prev == nodes[j - 1] && page == nodes[j]
    modifies prev`next, page`next
    ensures Linked(page, [page] + RemoveAt(nodes, j))
  {
    assert Follows(nodes, j);
    prev.next := page.next;
    page.next := first;
    ghost var after := [page] + RemoveAt(nodes, j);
    forall k: nat | k < |after|
      ensures Follows(after, k)
    {
      if k > 0 {
        assert old(Follows(nodes, if k - 1 < j then k - 1 else k));
      }
    }
  }

  /** Take the `j`-th page, which is not the first, out of the list. */
  method Bypass(prev: PageNode, page: PageNode, ghost first: PageNode, ghost nodes: seq<PageNode>, ghost j: nat)
    requires Distinct(nodes) && Linked(first, nodes)
    requires 0 < j < |nodes| && prev == nodes[j - 1] && page == nodes[j]
    modifies prev`next
    ensures Linked(first, RemoveAt(nodes, j))
  {
    assert Follows(nodes, j);
    prev.next := page.next;
    ghost var after := RemoveAt(nodes, j);
    forall k: nat | k < |after|
      ensures Follows(after, k)
    {
      assert old(Follows(nodes, if k < j then k else k + 1));
    }
  }

  /** The pages of list `i` are those that the table has for its addresses. */
  ghost predicate Listed(i: nat, nodes: seq<PageNode>, table: map<nat, PageNode>) {
    && Distinct(nodes)
    && (forall j {:trigger ListedAt(i, nodes[j], table)} :: 0 <= j < |nodes| ==> ListedAt(i, nodes[j], table))
    && (forall t {:trigger InList(nodes, table, t)} :: t in table && Index(t) == i ==> InList(nodes, table, t))
  }

  ghost predicate InList(nodes: seq<PageNode>, table: map<nat, PageNode>, t: nat)
    requires t in table
  {
    table[t] in nodes && table[t].tag == t
  }

  ghost predicate ListedAt(i: nat, n: PageNode, table: map<nat, PageNode>) {
    n.tag in table && table[n.tag] == n && Index(n.tag) == i
  }

  lemma ReorderListed(i: nat, nodes: seq<PageNode>, j: nat, table: map<nat, PageNode>)
    requires Listed(i, nodes, table) && j < |nodes|
    ensures Listed(i, [nodes[j]] + RemoveAt(nodes, j), table)
  {
    var after := [nodes[j]] + RemoveAt(nodes, j);
    forall k | 0 <= k < |after|
      ensures ListedAt(i, after[k], table)
    {
      assert after[k] == nodes[if k == 0 then j else if k - 1 < j then k - 1 else k];
    }
    forall n | n in nodes
      ensures n in after
    {
      var k: nat :| k < |nodes| && nodes[k] == n;
      assert n == after[if k == j then 0 else if k < j then k + 1 else k];
    }
    forall t | t in table && Index(t) == i
      ensures InList(after, table, t)
    {
      assert InList(nodes, table, t);
    }
  }

  /** A page of the table is at its own tag, has no or all its bytes, and holds what the
      image says. */
  ghost predicate PageOk(table: map<nat, PageNode>, image: Image, t: nat)
    requires t in table
    reads table.Values`perm, table.Values`data
  {
    && IsTag(t) && table[t].tag == t && (table[t].data == [] || |table[t].data| == PAGE)
    && t in image && image[t] == table[t].View()
  }

  ghost predicate PagesOk(table: map<nat, PageNode>, image: Image)
    reads table.Values`perm, table.Values`data
  {
    && image.Keys == table.Keys
    && forall t {:trigger PageOk(table, image, t)} :: t in table ==> PageOk(table, image, t)
  }

  /** The lists of another memory, for copying. */
  ghost predicate Source(heads: seq<PageNode?>, lists: seq<seq<PageNode>>, table: map<nat, PageNode>, image: Image)
    reads table.Values
  {
    && |heads| == COUNT == |lists|
    && PagesOk(table, image)
    && (forall k: nat, n :: k < COUNT && n in lists[k] ==> n in table.Values)
    && (forall k: nat :: k < COUNT ==> Listed(k, lists[k], table))
    && (forall k: nat :: k < COUNT ==> Linked(heads[k], lists[k]))
  }

  class Memory {
    const pages: array<PageNode?>
    var safe: bool
    var mapped: int
    ghost var chains: seq<seq<PageNode>>
    ghost var table: map<nat, PageNode>
    /** What the pages hold, and the objects that hold it. */
    ghost var image: Image
    ghost var all: set<PageNode>

    ghost predicate Valid()
      reads this, pages, all, set i, j | 0 <= i < |chains| && 0 <= j < |chains[i]| :: chains[i][j]
    {
      && pages.Length == COUNT == |chains|
      && (forall i: nat :: i < COUNT ==> Listed(i, chains[i], table))
      && (forall i: nat :: i < COUNT ==> Linked(pages[i], chains[i]))
      && (forall n :: n in table.Values ==> n in all)
      && PagesOk(table, image)
      && mapped == PAGE * |table|
    }

    constructor (safe: bool)
      ensures Valid() && this.safe == safe && image == map[] && fresh(pages)
    {
      this.safe := safe;
      pages := new PageNode?[COUNT](_ => null);
      mapped := 0;
      chains := seq(COUNT, _ => []);
      table := map[];
      image := map[];
      all := {};
    }

    lemma ViewIsImage()
      requires Valid()
      ensures IsImage(image)
    {
      forall t | t in image
        ensures IsTag(t) && |image[t].bytes| == PAGE
      {
        assert PageOk(table, image, t);
      }
    }

    /** Look for the page of an address in its list. */
    method Find(a: nat) returns (prev: PageNode?, page: PageNode?, ghost j: nat)
      requires Valid() && a < SPACE
      ensures if TagOf(a) in table then page == table[TagOf(a)] else page == null
      ensures page != null ==> j < |chains[Index(a)]| && page == chains[Index(a)][j]
      ensures page != null ==> prev == if j > 0 then chains[Index(a)][j - 1] else null
    {
      var tag, index := TagOf(a), Index(a);
      IndexOfTag(a);
      ghost var chain := chains[index];
      assert Linked(pages[index], chain) && Listed(index, chain, table);
      assert tag in table ==> PageOk(table, image, tag) && InList(chain, table, tag);
      page := pages[index];
      prev := null;
      j := 0;
      while page != null && page.tag != tag
        invariant j <= |chain|
        invariant page == if j < |chain| then chain[j] else null
        invariant prev == if j > 0 then chain[j - 1] else null
        invariant forall k :: 0 <= k < j ==> chain[k].tag != tag
        decreases |chain| - j
      {
        assert Follows(chain, j);
        prev := page;
        page := page.next;
        j := j + 1;
      }
      if page != null {
        assert ListedAt(index, page, table);
      }
    }

    /** The page of an address, which moves to the front of its list, or null. */
    method PageGet(a: nat) returns (page: PageNode?)
      requires Valid() && a < SPACE
      modifies this`chains, pages, all
      ensures Valid() && table == old(table) && image == old(image)
      ensures if TagOf(a) in table then page == table[TagOf(a)] else page == null
      ensures page != null ==> pages[Index(a)] == page
    {
      var prev;
      ghost var j;
      prev, page, j := Find(a);
      if prev != null && page != null {
        OnlyThere(Index(a), prev);
        BringForward(Index(a), prev, page, j);
      }
    }

    method BringForward(index: nat, prev: PageNode, page: PageNode, ghost j: nat)
      requires Valid() && index < COUNT && 0 < j < |chains[index]|
      requires prev == chains[index][j - 1] && page == chains[index][j]
      modifies this`chains, pages, prev`next, page`next
      ensures Valid() && table == old(table) && image == old(image)
      ensures pages[index] == page
    {
      ghost var nodes := chains[index];
      assert Linked(pages[index], nodes) && Listed(index, nodes, table);
      ReorderListed(index, nodes, j, table);
      OnlyThere(index, prev);
      OnlyThere(index, page);
      MoveToFront(pages[index], prev, page, nodes, j);
      pages[index] := page;
      chains := chains[index := [page] + RemoveAt(nodes, j)];
      forall i: nat | i < COUNT
        ensures Linked(pages[i], chains[i]) && Listed(i, chains[i], table)
      {
        assert old(Linked(pages[i], chains[i]) && Listed(i, chains[i], table));
      }
    }

    /** A page of one list is in no other. */
    lemma OnlyThere(index: nat, n: PageNode)
      requires Valid() && index < COUNT && n in chains[index]
      ensures forall i: nat :: i < COUNT && i != index ==> n !in chains[i]
      ensures n in all
    {
      ListedInTable(index, chains[index], table);
      forall i: nat | i < COUNT && i != index
        ensures n !in chains[i]
      {
        ListedInTable(i, chains[i], table);
      }
    }

    /** Map a page that is not mapped yet, without bytes of its own. */
    method PageCreate(a: nat, perm: set<Access>) returns (page: PageNode)
      requires Valid() && a < SPACE && TagOf(a) !in table
      modifies this`chains, this`table, this`image, this`all, this`mapped, pages
      ensures Valid() && fresh(page) && table == old(table)[TagOf(a) := page] && all == old(all) + {page}
      ensures image == old(image)[TagOf(a) := Page(perm, Zeros(PAGE))]
      ensures page.perm == perm && page.data == [] && page.tag == TagOf(a)
    {
      var tag, index := TagOf(a), Index(a);
      IndexOfTag(a);
      ghost var nodes := chains[index];
      assert Linked(pages[index], nodes) && Listed(index, nodes, table);
      page := new PageNode(tag, perm, pages[index]);
      pages[index] := page;
      mapped := mapped + PAGE;
      LinkedInFront(page, nodes);
      Remember(index, nodes, page);
    }

    /** A page that has been put in front of its list enters the table. */
    ghost method Remember(index: nat, nodes: seq<PageNode>, page: PageNode)
      requires pages.Length == COUNT == |chains| && index < COUNT && nodes == chains[index]
      requires page.tag !in table && IsTag(page.tag) && Index(page.tag) == index && page.data == []
      requires Linked(pages[index], [page] + nodes)
      requires forall i: nat :: i < COUNT && i != index ==> Linked(pages[i], chains[i])
      requires forall i: nat :: i < COUNT ==> Listed(i, chains[i], table)
      requires PagesOk(table, image) && forall n :: n in table.Values ==> n in all
      requires mapped == PAGE * (|table| + 1)
      modifies this`chains, this`table, this`image, this`all
      ensures all == old(all) + {page}
      ensures Valid() && table == old(table)[page.tag := page] && image == old(image)[page.tag := page.View()]
    {
      ghost var before := table;
      chains := chains[index := [page] + nodes];
      table := table[page.tag := page];
      image := image[page.tag := page.View()];
      all := all + {page};
      forall i: nat | i < COUNT
        ensures Listed(i, chains[i], table)
      {
        if i == index {
          ListedInFront(i, page, nodes, before);
        } else {
          ListedElsewhere(i, page, chains[i], before);
        }
      }
      PagesWith(before, old(image), page);
    }

    /** Change one page's permissions and bytes. */
    method SetPage(page: PageNode, perm: set<Access>, data: seq<byte>)
      requires Valid() && page.tag in table && table[page.tag] == page && (data == [] || |data| == PAGE)
      modifies this`image, page`perm, page`data
      ensures Valid() && page.perm == perm && page.data == data
      ensures image == old(image)[page.tag := page.View()]
    {
      ghost var before := image;
      assert PageOk(table, image, page.tag);
      page.perm := perm;
      page.data := data;
      image := image[page.tag := page.View()];
      forall t | t in table
        ensures PageOk(table, image, t)
      {
        assert old(PageOk(table, image, t));
      }
      forall i: nat | i < COUNT
        ensures Linked(pages[i], chains[i])
      {
        assert old(Linked(pages[i], chains[i]));
      }
    }

    method ReadPage(page: PageNode, a: nat, n: nat, kind: Access) returns (ok: bool, out: seq<byte>)
      requires Valid() && TagOf(a) in table && page == table[TagOf(a)] && a % PAGE + n <= PAGE
      ensures IsImage(image)
      ensures ok <==> Permitted(image, safe, a, kind)
      ensures ok ==> out == ReadInPage(image, a, n)
    {
      ViewIsImage();
      assert PageOk(table, image, TagOf(a));
      ok := !safe || kind in page.perm;
      var o := a % PAGE;
      out := if page.data == [] then Zeros(n) else page.data[o..o + n];
    }

    /** A write sets the page's modified flag; an initialization does not. */
    method WritePage(page: PageNode, a: nat, buf: seq<byte>, kind: Access) returns (ok: bool)
      requires Valid() && TagOf(a) in table && page == table[TagOf(a)] && a % PAGE + |buf| <= PAGE
      requires a < SPACE && Writes(kind)
      modifies this`image, page`perm, page`data
      ensures Valid() && IsImage(old(image))
      ensures ok <==> Permitted(old(image), safe, a, kind)
      ensures ok ==> image == WriteInPage(old(image), a, buf, kind)
    {
      ViewIsImage();
      assert PageOk(table, image, TagOf(a));
      var o := a % PAGE;
      ok := !safe || kind in page.perm;
      if kind == Write {
        SetPage(page, page.perm + {Modif}, page.data);
      }
      if ok {
        var data := if page.data == [] then Zeros(PAGE) else page.data;
        SetPage(page, page.perm, Splice(data, o, buf));
      }
    }

    // Access to bytes of one page. In safe mode an access to a page that is not mapped or
    // does not permit it ends the simulation. In unsafe mode a page that is not mapped
    // reads as zeros, and a write maps it.

    method ReadChunk(a: nat, n: nat, kind: Access) returns (ok: bool, out: seq<byte>)
      requires Valid() && a < SPACE && a % PAGE + n <= PAGE && Reads(kind)
      modifies this`chains, pages, all
      ensures Valid() && table == old(table) && image == old(image) && IsImage(image)
      ensures ok <==> Permitted(image, safe, a, kind)
      ensures ok ==> out == ReadInPage(image, a, n)
    {
      ViewIsImage();
      var page := PageGet(a);
      if page == null {
        ok, out := !safe, Zeros(n);
      } else {
        ok, out := ReadPage(page, a, n, kind);
      }
    }

    method WriteChunk(a: nat, buf: seq<byte>, kind: Access) returns (ok: bool)
      requires Valid() && a < SPACE && a % PAGE + |buf| <= PAGE && Writes(kind)
      modifies this`chains, this`table, this`image, this`all, this`mapped, pages, all
      ensures Valid() && IsImage(old(image)) && fresh(all - old(all))
      ensures ok <==> Permitted(old(image), safe, a, kind)
      ensures ok ==> image == WriteInPage(old(image), a, buf, kind)
    {
      ViewIsImage();
      var page := PageGet(a);
      if page != null {
        ok := WritePage(page, a, buf, kind);
      } else if safe {
        ok := false;
      } else {
        ok := true;
        WriteNewPage(a, buf, kind);
      }
    }

    method WriteNewPage(a: nat, buf: seq<byte>, kind: Access)
      requires Valid() && a < SPACE && a % PAGE + |buf| <= PAGE && Writes(kind) && TagOf(a) !in table && !safe
      modifies this`chains, this`table, this`image, this`all, this`mapped, pages
      ensures Valid() && IsImage(old(image)) && fresh(all - old(all))
      ensures image == WriteInPage(old(image), a, buf, kind)
    {
      ViewIsImage();
      var perm := if kind == Write then FreshPage().perm + {Modif} else FreshPage().perm;
      var data := Splice(Zeros(PAGE), a % PAGE, buf);
      MapWith(a, perm, data);
      WriteFresh(old(image), a, buf, kind);
    }

    /** Map a page with all permissions and then give it permissions and bytes. */
    method MapWith(a: nat, perm: set<Access>, data: seq<byte>)
      requires Valid() && a < SPACE && TagOf(a) !in table && |data| == PAGE
      modifies this`chains, this`table, this`image, this`all, this`mapped, pages
      ensures Valid() && fresh(all - old(all))
      ensures image == old(image)[TagOf(a) := FreshPage()][TagOf(a) := Page(perm, data)]
    {
      var page := PageCreate(a, FreshPage().perm);
      SetPage(page, perm, data);
    }

    // ---- Accesses of any size ----

    /** The part of an access of `left` bytes at `a` that lies in the page of `a`. */
    static function ChunkSize(a: nat, left: nat): (n: nat)
      ensures n <= left && a % PAGE + n <= PAGE && (left > 0 ==> n > 0)
    {
      if left < PAGE - a % PAGE then left else PAGE - a % PAGE
    }

    /** Read bytes one page at a time: they are the bytes of the flat view. The read fails
        exactly when one of its bytes may not be read. */
    method ReadBytes(a: nat, n: nat, kind: Access) returns (ok: bool, out: seq<byte>)
      requires Valid() && a < SPACE && n <= SPACE && Reads(kind)
      modifies this`chains, pages, all
      ensures Valid() && table == old(table) && image == old(image) && IsImage(image)
      ensures ok <==> MayAccess(image, safe, kind, a, n)
      ensures ok ==> |out| == n && BytesFrom(image, a, out)
    {
      ViewIsImage();
      ghost var img := image;
      var cur := a;
      out := [];
      ok := true;
      while ok && |out| < n
        invariant Valid() && image == img && table == old(table)
        invariant |out| <= n && cur == Advance(a, |out|)
        invariant ok ==> MayAccess(img, safe, kind, a, |out|) && BytesFrom(img, a, out)
        invariant !ok ==> !MayAccess(img, safe, kind, a, n)
        decreases ok, n - |out|
      {
        ok, out := ReadNext(a, n, cur, out, kind);
        cur := Advance(a, |out|);
      }
    }

    method ReadNext(ghost a: nat, n: nat, cur: nat, got: seq<byte>, kind: Access) returns (ok: bool, out: seq<byte>)
      requires Valid() && a < SPACE && |got| < n <= SPACE && Reads(kind) && cur == Advance(a, |got|)
      requires IsImage(image) && MayAccess(image, safe, kind, a, |got|) && BytesFrom(image, a, got)
      modifies this`chains, pages, all
      ensures Valid() && table == old(table) && image == old(image)
      ensures if ok then |got| < |out| <= n else out == got
      ensures ok ==> MayAccess(image, safe, kind, a, |out|) && BytesFrom(image, a, out)
      ensures !ok ==> !MayAccess(image, safe, kind, a, n)
    {
      ghost var img := image;
      var chunk := ChunkSize(cur, n - |got|);
      var part;
      ok, part := ReadChunk(cur, chunk, kind);
      if ok {
        MayAccessMore(img, safe, kind, a, |got|, chunk);
        MoreBytes(img, a, got, part);
        out := got + part;
      } else {
        Denied(img, safe, kind, a, |got|, n);
        out := got;
      }
    }

    /** Write bytes one page at a time: the flat view changes in exactly these bytes. The
        write fails exactly when one of them may not be written. */
    method WriteBytes(a: nat, buf: seq<byte>, kind: Access) returns (ok: bool)
      requires Valid() && a < SPACE && |buf| <= SPACE && Writes(kind)
      modifies this`chains, this`table, this`image, this`all, this`mapped, pages, all
      ensures Valid() && IsImage(old(image)) && fresh(all - old(all))
      ensures ok <==> MayAccess(old(image), safe, kind, a, |buf|)
      ensures ok ==> Written(old(image), image, safe, kind, a, buf)
    {
      ViewIsImage();
      ghost var img := image;
      var done: nat := 0;
      NothingWritten(img, safe, kind, a);
      assert buf[..0] == [];
      ok := true;
      while ok && done < |buf|
        invariant done <= |buf|
        invariant Valid() && fresh(all - old(all))
        invariant ok ==> Written(img, image, safe, kind, a, buf[..done])
        invariant !ok ==> !MayAccess(img, safe, kind, a, |buf|)
        decreases ok, |buf| - done
      {
        ok, done := WriteNext(img, a, buf, done, kind);
      }
      assert done == |buf| ==> buf[..done] == buf;
    }

    method WriteNext(ghost img: Image, a: nat, buf: seq<byte>, done: nat, kind: Access) returns (ok: bool, now: nat)
      requires Valid() && a < SPACE && done < |buf| <= SPACE && Writes(kind)
      requires Written(img, image, safe, kind, a, buf[..done])
      modifies this`chains, this`table, this`image, this`all, this`mapped, pages, all
      ensures Valid() && fresh(all - old(all))
      ensures if ok then done < now <= |buf| else now == done
      ensures ok ==> Written(img, image, safe, kind, a, buf[..now])
      ensures !ok ==> !MayAccess(img, safe, kind, a, |buf|)
    {
      var cur := Advance(a, done);
      var chunk := ChunkSize(cur, |buf| - done);
      var part := buf[done..done + chunk];
      ghost var before := image;
      ghost var first := buf[..done];
      ok := WriteChunk(cur, part, kind);
      now := done;
      if ok {
        now := done + chunk;
        assert buf[..now] == first + part;
        WrittenMore(img, before, image, safe, kind, a, first, cur, part, buf[..now]);
      } else {
        WriteDenied(img, before, safe, kind, a, first, |buf|);
      }
    }
  
    // ---- Free space ----

    /** The lowest free run of pages at or above `a` that has the size and does not reach
        beyond the address space, or -1 if there is none. At address zero the search gives
        up at once. */
    method MapSpace(a: nat, size: nat) returns (start: int)
      requires Valid() && IsTag(a) && size % PAGE == 0 && size > 0
      modifies this`chains, pages, all
      ensures Valid() && table == old(table) && image == old(image)
      ensures if a > 0 then
                if start == -1 then NoneBelow(table.Keys, a, size, SPACE) else start >= 0 && Lowest(table.Keys, a, size, start)
              else start == -1
    {
      var tagStart: nat, tagEnd: nat := a, a;
      ghost var end: nat := a;
      RiseStart(table.Keys, a, size);
      while true
        invariant Valid() && table == old(table) && image == old(image)
        invariant Rising(table.Keys, a, size, tagStart, end) && tagEnd == end % SPACE && (a == 0 ==> end == 0)
        decreases SPACE - end
      {
        if tagEnd == 0 {
          if end == SPACE {
            RiseFull(table.Keys, a, size, tagStart);
          }
          return -1;
        }
        assert end < SPACE && tagEnd == end;
        var page := PageGet(tagEnd);
        if page != null {
          RiseMapped(table.Keys, a, size, tagStart, end);
          tagStart := tagEnd + PAGE;
        } else {
          RiseFree(table.Keys, a, size, tagStart, end);
          if tagEnd - tagStart + PAGE == size {
            return tagStart;
          }
          assert tagEnd - tagStart + PAGE < size;
        }
        end := end + PAGE;
        tagEnd := Advance(tagEnd, PAGE);
      }
    }

    /** The mirror image: the highest free run with its last page at or below `a`, above
        address zero. */
    method MapSpaceDown(a: nat, size: nat) returns (start: int)
      requires Valid() && IsTag(a) && size % PAGE == 0 && size > 0
      modifies this`chains, pages, all
      ensures Valid() && table == old(table) && image == old(image)
      ensures if start == -1 then forall s: nat :: FitsBelow(a, size, s) ==> !FreeRun(table.Keys, s, size)
              else start >= 0 && Highest(table.Keys, a, size, start)
    {
      var tagStart: nat, tagEnd: nat := a, a;
      FallStart(table.Keys, a, size);
      while true
        invariant Valid() && table == old(table) && image == old(image)
        invariant Falling(table.Keys, a, size, tagStart, tagEnd)
        decreases tagStart
      {
        if tagStart == 0 {
          FallEmpty(table.Keys, a, size, tagEnd);
          return -1;
        }
        var page := PageGet(tagStart);
        if page != null {
          FallMapped(table.Keys, a, size, tagStart, tagEnd);
          tagStart := tagStart - PAGE;
          tagEnd := tagStart;
        } else {
          FallFree(table.Keys, a, size, tagStart, tagEnd);
          if tagEnd - tagStart + PAGE == size {
            return tagStart;
          }
          assert tagEnd - tagStart + PAGE < size;
          tagStart := tagStart - PAGE;
        }
      }
    }
  
    // ---- Removing pages, and copying images ----

    /** Unmap the page of an address, if it is mapped. */
    method PageFree(a: nat)
      requires Valid() && a < SPACE
      modifies this`chains, this`table, this`image, this`all, this`mapped, pages, all
      ensures Valid()
      ensures TagOf(a) in old(table) ==> table == old(table) - {TagOf(a)} && image == old(image) - {TagOf(a)}
      ensures TagOf(a) !in old(table) ==> table == old(table) && image == old(image)
      ensures forall i: nat :: i < COUNT && i != Index(a) ==> chains[i] == old(chains[i])
      ensures all == old(all)
    {
      var prev, page;
      ghost var j;
      prev, page, j := Find(a);
      if page != null {
        if prev == null {
          RemoveFirst(a, page);
        } else {
          OnlyThere(Index(a), prev);
          RemoveAfter(a, prev, page, j);
        }
      }
    }

    method RemoveFirst(a: nat, page: PageNode)
      requires Valid() && a < SPACE && TagOf(a) in table && page == table[TagOf(a)]
      requires chains[Index(a)] != [] && page == chains[Index(a)][0]
      modifies this`chains, this`table, this`image, this`all, this`mapped, pages
      ensures Valid() && table == old(table) - {TagOf(a)} && image == old(image) - {TagOf(a)}
      ensures forall i: nat :: i < COUNT && i != Index(a) ==> chains[i] == old(chains[i])
      ensures all == old(all)
    {
      var index := Index(a);
      ghost var nodes := chains[index];
      assert Linked(pages[index], nodes) && Listed(index, nodes, table) && PageOk(table, image, TagOf(a));
      LinkedRest(page, nodes);
      pages[index] := page.next;
      mapped := mapped - PAGE;
      Forget(index, nodes, 0, page);
    }

    method RemoveAfter(a: nat, prev: PageNode, page: PageNode, ghost j: nat)
      requires Valid() && a < SPACE && TagOf(a) in table && page == table[TagOf(a)]
      requires 0 < j < |chains[Index(a)]| && page == chains[Index(a)][j] && prev == chains[Index(a)][j - 1]
      modifies this`chains, this`table, this`image, this`all, this`mapped, prev`next
      ensures Valid() && table == old(table) - {TagOf(a)} && image == old(image) - {TagOf(a)}
      ensures forall i: nat :: i < COUNT && i != Index(a) ==> chains[i] == old(chains[i])
      ensures all == old(all)
    {
      var index := Index(a);
      ghost var nodes := chains[index];
      assert Linked(pages[index], nodes) && Listed(index, nodes, table) && PageOk(table, image, TagOf(a));
      OnlyThere(index, prev);
      Bypass(prev, page, nodes[0], nodes, j);
      mapped := mapped - PAGE;
      forall i: nat | i < COUNT && i != index
        ensures Linked(pages[i], chains[i])
      {
        assert old(Linked(pages[i], chains[i]));
      }
      Forget(index, nodes, j, page);
    }

    /** A page that has been taken out of its list leaves the table. */
    ghost method Forget(index: nat, nodes: seq<PageNode>, j: nat, page: PageNode)
      requires pages.Length == COUNT == |chains| && index < COUNT && nodes == chains[index]
      requires j < |nodes| && page == nodes[j] && page.tag in table && Index(page.tag) == index
      requires Linked(pages[index], RemoveAt(nodes, j))
      requires forall i: nat :: i < COUNT && i != index ==> Linked(pages[i], chains[i])
      requires forall i: nat :: i < COUNT ==> Listed(i, chains[i], table)
      requires PagesOk(table, image) && forall n :: n in table.Values ==> n in all
      requires mapped == PAGE * (|table| - 1)
      modifies this`chains, this`table, this`image
      ensures Valid() && table == old(table) - {page.tag} && image == old(image) - {page.tag}
      ensures chains == old(chains)[index := RemoveAt(nodes, j)] && all == old(all)
    {
      ghost var before := table;
      chains := chains[index := RemoveAt(nodes, j)];
      table := table - {page.tag};
      image := image - {page.tag};
      forall i: nat | i < COUNT
        ensures Listed(i, chains[i], table)
      {
        if i == index {
          ListedWithout(i, nodes, j, before);
        } else {
          ListedWithoutOther(i, chains[i], page, before);
        }
      }
      OneLess(before, page.tag);
      PagesWithout(before, old(image), page.tag);
    }
  
    /** Free every page, list by list. */
    method Clear()
      requires Valid()
      modifies this`chains, this`table, this`image, this`all, this`mapped, pages, all
      ensures Valid() && table == map[] && image == map[] && all == old(all)
    {
      for i := 0 to COUNT
        invariant Valid() && all == old(all)
        invariant forall k: nat :: k < i ==> chains[k] == []
      {
        ClearList(i);
      }
      forall t | t in table
        ensures table[t] in chains[Index(t)]
      {
        assert Listed(Index(t), chains[Index(t)], table);
        assert InList(chains[Index(t)], table, t);
      }
    }

    method ClearList(i: nat)
      requires Valid() && i < COUNT
      modifies this`chains, this`table, this`image, this`all, this`mapped, pages, all
      ensures Valid() && all == old(all) && chains[i] == []
      ensures forall k: nat :: k < COUNT && k != i ==> chains[k] == old(chains[k])
    {
      while pages[i] != null
        invariant Valid() && all == old(all)
        invariant forall k: nat :: k < COUNT && k != i ==> chains[k] == old(chains[k])
        decreases |table|
      {
        FirstListed(i);
        ghost var before := table;
        var tag := pages[i].tag;
        PageFree(tag);
        OneLess(before, tag);
      }
      assert Linked(pages[i], chains[i]);
    }

    lemma FirstListed(i: nat)
      requires Valid() && i < COUNT && pages[i] != null
      ensures pages[i].tag in table && IsTag(pages[i].tag) && Index(pages[i].tag) == i && TagOf(pages[i].tag) == pages[i].tag
    {
      assert Linked(pages[i], chains[i]) && Listed(i, chains[i], table);
      assert ListedAt(i, chains[i][0], table);
      assert PageOk(table, image, pages[i].tag);
    }
  
    /** Copy another image: this one then holds the same pages, with the same permissions
        and bytes. */
    method Clone(src: Memory)
      requires Valid() && src.Valid() && this != src && pages != src.pages && all !! src.table.Values
      modifies this, pages, all
      ensures Valid() && image == src.image && safe == src.safe
    {
      src.IsSource();
      var heads := src.pages[..];
      ghost var lists, from, img := src.chains, src.table, src.image;
      Clear();
      assert Source(heads, lists, from, img);
      safe := false;
      CopyLists(heads, lists, from, img);
      safe := src.safe;
    }

    lemma AllListed()
      requires Valid()
      ensures forall k: nat, n :: k < COUNT && n in chains[k] ==> n in table.Values
    {
      forall k: nat, n | k < COUNT && n in chains[k]
        ensures n in table.Values
      {
        assert Listed(k, chains[k], table);
        ListedInTable(k, chains[k], table);
      }
    }

    lemma IsSource()
      requires Valid()
      ensures Source(pages[..], chains, table, image)
    {
      AllListed();
      assert forall k: nat :: k < COUNT ==> Linked(pages[..][k], chains[k]);
    }

    method CopyLists(heads: seq<PageNode?>, ghost lists: seq<seq<PageNode>>, ghost from: map<nat, PageNode>, ghost img: Image)
      requires Valid() && !safe && image == map[]
      requires all !! from.Values && Source(heads, lists, from, img)
      modifies this`chains, this`table, this`image, this`all, this`mapped, pages, all
      ensures Valid() && image == img
    {
      NoneCopied(img);
      for i := 0 to COUNT
        invariant Valid() && fresh(all - old(all)) && all !! from.Values && unchanged(from.Values)
        invariant CopiedBelow(image, img, i)
      {
        assert PagesOk(from, img) && Listed(i, lists[i], from);
        assert Linked(heads[i], lists[i]);
        CopyNodes(heads[i], i, lists[i], from, img);
      }
      AllCopied(image, img);
    }

    method CopyNodes(first: PageNode?, ghost i: nat, ghost nodes: seq<PageNode>,
                     ghost from: map<nat, PageNode>, ghost img: Image)
      requires Valid() && !safe && i < COUNT
      requires all !! from.Values && PagesOk(from, img)
      requires Linked(first, nodes) && Listed(i, nodes, from)
      requires CopiedBelow(image, img, i)
      modifies this`chains, this`table, this`image, this`all, this`mapped, pages, all
      ensures Valid() && fresh(all - old(all))
      ensures CopiedBelow(image, img, i + 1)
    {
      ghost var before := image;
      ListedInTable(i, nodes, from);
      assert forall n :: n in nodes ==> n in from.Values;
      CopyNone(before, img, nodes);
      var page := first;
      ghost var j: nat := 0;
      while page != null
        invariant j <= |nodes| && page == At(nodes, j)
        invariant Valid() && fresh(all - old(all))
        invariant all !! from.Values && unchanged(from.Values)
        invariant CopiedSome(image, before, img, nodes, j)
        decreases |nodes| - j
      {
        CopyNext(page, i, nodes, j, from, before, img);
        assert Follows(nodes, j);
        page := page.next;
        j := j + 1;
      }
      CopyAll(i, nodes, from, before, image, img);
    }

    method CopyNext(page: PageNode, ghost i: nat, ghost nodes: seq<PageNode>, ghost j: nat,
                    ghost from: map<nat, PageNode>, ghost before: Image, ghost img: Image)
      requires Valid() && !safe && j < |nodes| && page == nodes[j]
      requires all !! from.Values && PagesOk(from, img) && Listed(i, nodes, from)
      requires CopiedBelow(before, img, i) && CopiedSome(image, before, img, nodes, j)
      modifies this`chains, this`table, this`image, this`all, this`mapped, pages, all
      ensures Valid() && fresh(all - old(all))
      ensures CopiedSome(image, before, img, nodes, j + 1)
    {
      CopyOne(i, nodes, from, j, before, image, img);
      ClonePage(page);
    }

    method ClonePage(page: PageNode)
      requires Valid() && !safe && page !in all && page.tag !in table && IsTag(page.tag)
      requires page.data == [] || |page.data| == PAGE
      modifies this`chains, this`table, this`image, this`all, this`mapped, pages, all
      ensures Valid() && fresh(all - old(all)) && image == old(image)[page.tag := page.View()]
    {
      assert TagOf(page.tag) == page.tag;
      var copy := PageCreate(page.tag, page.perm);
      if page.data != [] {
        FillPage(copy, page.data);
        assert image == old(image)[page.tag := page.View()];
      }
    }

    /** Initialize all bytes of a page. */
    method FillPage(page: PageNode, data: seq<byte>)
      requires Valid() && !safe && page.tag in table && table[page.tag] == page && IsTag(page.tag) && |data| == PAGE
      modifies this`chains, this`image, pages, all
      ensures Valid() && all == old(all) && table == old(table)
      ensures image == old(image)[page.tag := Page(old(page.perm), data)]
    {
      assert PageOk(table, image, page.tag);
      var p := PageGet(page.tag);
      assert PageOk(table, image, page.tag);
      SetPage(page, page.perm, data);
    }
  }

  ghost predicate Agrees(a: Image, b: Image) {
    forall t {:trigger AgreesAt(a, b, t)} :: t in a ==> AgreesAt(a, b, t)
  }

  ghost predicate AgreesAt(a: Image, b: Image, t: nat)
    requires t in a
  {
    t in b && a[t] == b[t]
  }

  /** One of the first `j` pages is at tag `t`. */
  ghost predicate Among(nodes: seq<PageNode>, j: nat, t: nat) {
    exists k :: 0 <= k < j && k < |nodes| && nodes[k].tag == t
  }

  /** All pages of the first `i` lists are copied, and nothing else. */
  ghost predicate CopiedBelow(now: Image, img: Image, i: nat) {
    Agrees(now, img) && forall t {:trigger BelowAt(now, img, i, t)} :: BelowAt(now, img, i, t)
  }

  ghost predicate BelowAt(now: Image, img: Image, i: nat, t: nat) {
    t in now <==> t in img && Index(t) < i
  }

  ghost predicate SomeAt(now: Image, before: Image, nodes: seq<PageNode>, j: nat, t: nat) {
    t in now <==> t in before || Among(nodes, j, t)
  }

  /** The first `j` pages of the list are copied as well. */
  ghost predicate CopiedSome(now: Image, before: Image, img: Image, nodes: seq<PageNode>, j: nat) {
    Agrees(now, img) && forall t {:trigger SomeAt(now, before, nodes, j, t)} :: SomeAt(now, before, nodes, j, t)
  }

  lemma CopyNone(before: Image, img: Image, nodes: seq<PageNode>)
    requires Agrees(before, img)
    ensures CopiedSome(before, before, img, nodes, 0)
  {
  }

  lemma CopyOne(i: nat, nodes: seq<PageNode>, from: map<nat, PageNode>, j: nat, before: Image, now: Image, img: Image)
    requires Listed(i, nodes, from) && PagesOk(from, img) && j < |nodes|
    requires CopiedBelow(before, img, i) && CopiedSome(now, before, img, nodes, j)
    ensures nodes[j] in from.Values && nodes[j].tag !in now && IsTag(nodes[j].tag)
    ensures nodes[j].data == [] || |nodes[j].data| == PAGE
    ensures CopiedSome(now[nodes[j].tag := nodes[j].View()], before, img, nodes, j + 1)
  {
    var n := nodes[j];
    assert ListedAt(i, nodes[j], from) && PageOk(from, img, n.tag);
    forall k | 0 <= k < j
      ensures nodes[k].tag != n.tag
    {
      assert ListedAt(i, nodes[k], from);
    }
    var after := now[n.tag := n.View()];
    var next := j + 1;
    forall t: nat
      ensures SomeAt(after, before, nodes, next, t)
    {
      assert SomeAt(now, before, nodes, j, t);
      assert Among(nodes, j + 1, t) <==> Among(nodes, j, t) || t == n.tag by {
        if t == n.tag {
          assert nodes[j].tag == t;
        }
      }
    }
    assert SomeAt(now, before, nodes, j, n.tag) && BelowAt(before, img, i, n.tag);
    forall t | t in after
      ensures AgreesAt(after, img, t)
    {
      assert t in now ==> AgreesAt(now, img, t);
    }
  }

  lemma CopyAll(i: nat, nodes: seq<PageNode>, from: map<nat, PageNode>, before: Image, now: Image, img: Image)
    requires Listed(i, nodes, from) && PagesOk(from, img)
    requires CopiedBelow(before, img, i) && CopiedSome(now, before, img, nodes, |nodes|)
    ensures CopiedBelow(now, img, i + 1)
  {
    var next := i + 1;
    forall t: nat
      ensures BelowAt(now, img, next, t)
    {
      assert BelowAt(before, img, i, t) && SomeAt(now, before, nodes, |nodes|, t);
      if t in from && Index(t) == i {
        assert InList(nodes, from, t);
        var k :| 0 <= k < |nodes| && nodes[k] == from[t];
        assert nodes[k].tag == t;
      }
      if Among(nodes, |nodes|, t) {
        var k :| 0 <= k < |nodes| && nodes[k].tag == t;
        assert ListedAt(i, nodes[k], from);
      }
    }
  }

  lemma NoneCopied(img: Image)
    ensures CopiedBelow(map[], img, 0)
  {
    var none: Image := map[];
    forall t: nat
      ensures BelowAt(none, img, 0, t)
    {
    }
  }

  lemma AllCopied(now: Image, img: Image)
    requires CopiedBelow(now, img, COUNT)
    ensures now == img
  {
    forall t
      ensures t in now <==> t in img
    {
      assert BelowAt(now, img, COUNT, t);
    }
    forall t | t in now
      ensures now[t] == img[t]
    {
      assert AgreesAt(now, img, t);
    }
  }

  lemma PagesWith(table: map<nat, PageNode>, image: Image, page: PageNode)
    requires PagesOk(table, image) && IsTag(page.tag) && page.data == []
    ensures PagesOk(table[page.tag := page], image[page.tag := page.View()])
  {
    var after, now := table[page.tag := page], image[page.tag := page.View()];
    forall t | t in after
      ensures PageOk(after, now, t)
    {
      assert t in table ==> PageOk(table, image, t);
    }
  }

  lemma PagesWithout(table: map<nat, PageNode>, image: Image, tag: nat)
    requires PagesOk(table, image)
    ensures PagesOk(table - {tag}, image - {tag})
  {
    var after, now := table - {tag}, image - {tag};
    forall t | t in after
      ensures PageOk(after, now, t)
    {
      assert PageOk(table, image, t);
    }
  }

  /** Without its first page a list starts at the second. */
  lemma LinkedRest(page: PageNode, nodes: seq<PageNode>)
    requires Linked(page, nodes)
    ensures nodes != [] && Linked(page.next, RemoveAt(nodes, 0))
  {
    assert Follows(nodes, 0);
    forall k: nat | k < |nodes| - 1
      ensures Follows(RemoveAt(nodes, 0), k)
    {
      assert Follows(nodes, k + 1);
    }
  }

  lemma ListedWithout(i: nat, nodes: seq<PageNode>, j: nat, table: map<nat, PageNode>)
    requires Listed(i, nodes, table) && j < |nodes|
    ensures Listed(i, RemoveAt(nodes, j), table - {nodes[j].tag})
  {
    var after, rest := RemoveAt(nodes, j), table - {nodes[j].tag};
    ListedInTable(i, nodes, table);
    forall k | 0 <= k < |after|
      ensures ListedAt(i, after[k], rest)
    {
      assert ListedAt(i, nodes[if k < j then k else k + 1], table) && ListedAt(i, nodes[j], table);
    }
    forall t | t in rest && Index(t) == i
      ensures InList(after, rest, t)
    {
      assert InList(nodes, table, t);
      var k: nat :| k < |nodes| && nodes[k] == table[t];
      assert ListedAt(i, nodes[k], table) && ListedAt(i, nodes[j], table);
      assert k != j ==> after[if k < j then k else k - 1] == rest[t];
    }
  }

  lemma ListedWithoutOther(i: nat, nodes: seq<PageNode>, page: PageNode, table: map<nat, PageNode>)
    requires Listed(i, nodes, table) && Index(page.tag) != i
    ensures Listed(i, nodes, table - {page.tag})
  {
    forall k | 0 <= k < |nodes|
      ensures ListedAt(i, nodes[k], table - {page.tag})
    {
      assert ListedAt(i, nodes[k], table);
    }
    forall t | t in table - {page.tag} && Index(t) == i
      ensures InList(nodes, table - {page.tag}, t)
    {
      assert InList(nodes, table, t);
    }
  }

  lemma WriteFresh(img: Image, a: nat, data: seq<byte>, kind: Access)
    requires IsImage(img) && a < SPACE && a % PAGE + |data| <= PAGE && TagOf(a) !in img
    ensures var perm := if kind == Write then FreshPage().perm + {Modif} else FreshPage().perm;
      WriteInPage(img, a, data, kind) ==
        img[TagOf(a) := FreshPage()][TagOf(a) := Page(perm, Splice(Zeros(PAGE), a % PAGE, data))]
  {
  }

  lemma LinkedInFront(page: PageNode, nodes: seq<PageNode>)
    requires Linked(page.next, nodes)
    ensures Linked(page, [page] + nodes)
  {
    forall j: nat | j < |nodes| + 1
      ensures Follows([page] + nodes, j)
    {
      assert j > 0 ==> Follows(nodes, j - 1);
    }
  }

  lemma ListedInFront(i: nat, page: PageNode, nodes: seq<PageNode>, table: map<nat, PageNode>)
    requires Listed(i, nodes, table) && page.tag !in table && Index(page.tag) == i
    ensures Listed(i, [page] + nodes, table[page.tag := page])
  {
    ListedInTable(i, nodes, table);
    forall j | 0 <= j < |nodes| + 1
      ensures ListedAt(i, ([page] + nodes)[j], table[page.tag := page])
    {
      assert j > 0 ==> ListedAt(i, nodes[j - 1], table);
    }
    assert page !in nodes;
    forall t | t in table[page.tag := page] && Index(t) == i
      ensures InList([page] + nodes, table[page.tag := page], t)
    {
      assert t in table ==> InList(nodes, table, t);
    }
  }

  lemma ListedElsewhere(i: nat, page: PageNode, nodes: seq<PageNode>, table: map<nat, PageNode>)
    requires Listed(i, nodes, table) && page.tag !in table && Index(page.tag) != i
    ensures Listed(i, nodes, table[page.tag := page])
  {
    forall j | 0 <= j < |nodes|
      ensures ListedAt(i, nodes[j], table[page.tag := page])
    {
      assert ListedAt(i, nodes[j], table);
    }
    forall t | t in table[page.tag := page] && Index(t) == i
      ensures InList(nodes, table[page.tag := page], t)
    {
      assert InList(nodes, table, t);
    }
  }

  lemma ListedInTable(i: nat, nodes: seq<PageNode>, table: map<nat, PageNode>)
    requires Listed(i, nodes, table)
    ensures forall n :: n in nodes ==> ListedAt(i, n, table)
  {
    forall n | n in nodes
      ensures ListedAt(i, n, table)
    {
      var k: nat :| k < |nodes| && nodes[k] == n;
      assert ListedAt(i, nodes[k], table);
    }
  }
}
