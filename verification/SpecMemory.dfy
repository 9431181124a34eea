/** Speculative memory (spec-mem.c): small pages laid over a memory image, which takes the
    speculative writes while the image itself stays as it is. */
module SpecMemory {
  import opened MemoryImage
  import opened PagedMemory

  const SPEC_PAGE: nat := 16
  const LIMIT: nat := 100

  function SpecTag(a: nat): (t: nat)
    ensures t <= a < t + SPEC_PAGE && t % SPEC_PAGE == 0
  {
    a - a % SPEC_PAGE
  }

  type Overlay = map<nat, seq<byte>>

  predicate IsOverlay(ov: Overlay) {
    forall t :: t in ov ==> t % SPEC_PAGE == 0 && t < SPACE && |ov[t]| == SPEC_PAGE
  }

  /** The byte that speculative code sees. */
  function SpecByte(img: Image, ov: Overlay, a: nat): byte
    requires IsImage(img) && IsOverlay(ov)
  {
    if SpecTag(a) in ov then ov[SpecTag(a)][a % SPEC_PAGE] else ByteAt(img, a)
  }

  /** A new page starts with the bytes of the image. */
  function BasePage(img: Image, t: nat): (s: seq<byte>)
    requires IsImage(img)
    ensures |s| == SPEC_PAGE && forall j :: 0 <= j < SPEC_PAGE ==> s[j] == ByteAt(img, t + j)
  {
    seq(SPEC_PAGE, j requires 0 <= j < SPEC_PAGE => ByteAt(img, t + j))
  }

  /** The page at `t`, or the one that would be created. */
  function PageOf(img: Image, ov: Overlay, t: nat): (s: seq<byte>)
    requires IsImage(img) && IsOverlay(ov)
    ensures |s| == SPEC_PAGE
  {
    if t in ov then ov[t] else BasePage(img, t)
  }

  /** Whether a write at `a` is accepted: its page is there, or may be added. */
  predicate Accepts(ov: Overlay, a: nat) {
    SpecTag(a) in ov || |ov| < LIMIT
  }

  lemma PutPage(ov: Overlay, t: nat, page: seq<byte>)
    requires IsOverlay(ov) && t % SPEC_PAGE == 0 && t < SPACE && |page| == SPEC_PAGE
    ensures IsOverlay(ov[t := page])
  {
  }

  /** A write within a page. Without room for a new page it is ignored. */
  function WriteAligned(img: Image, ov: Overlay, a: nat, data: seq<byte>): (r: Overlay)
    requires IsImage(img) && IsOverlay(ov) && a < SPACE && a % SPEC_PAGE + |data| <= SPEC_PAGE
    ensures IsOverlay(r)
    ensures r.Keys == if Accepts(ov, a) then ov.Keys + {SpecTag(a)} else ov.Keys
  {
    if !Accepts(ov, a) then ov
    else
      var page := Splice(PageOf(img, ov, SpecTag(a)), a % SPEC_PAGE, data);
      PutPage(ov, SpecTag(a), page);
      ov[SpecTag(a) := page]
  }

  lemma SameSpecPage(a: nat, b: nat)
    requires SpecTag(a) <= b < SpecTag(a) + SPEC_PAGE
    ensures SpecTag(b) == SpecTag(a)
  {
  }

  lemma PlaceInPage(a: nat, b: nat, n: nat)
    requires a % SPEC_PAGE + n <= SPEC_PAGE
    ensures SpecTag(b) == SpecTag(a) ==> b % SPEC_PAGE == b - SpecTag(a) && a % SPEC_PAGE == a - SpecTag(a)
    ensures a <= b < a + n ==> SpecTag(b) == SpecTag(a)
  {
    if a <= b < a + n {
      SameSpecPage(a, b);
    }
  }

  lemma ByteOfPage(img: Image, ov: Overlay, b: nat)
    requires IsImage(img) && IsOverlay(ov)
    ensures SpecByte(img, ov, b) == PageOf(img, ov, SpecTag(b))[b - SpecTag(b)]
  {
    assert b % SPEC_PAGE == b - SpecTag(b);
    assert SpecTag(b) + (b - SpecTag(b)) == b;
  }

  lemma WriteInSamePage(img: Image, ov: Overlay, a: nat, data: seq<byte>, b: nat)
    requires IsImage(img) && IsOverlay(ov) && a < SPACE && a % SPEC_PAGE + |data| <= SPEC_PAGE
    requires Accepts(ov, a) && SpecTag(b) == SpecTag(a)
    ensures SpecByte(img, WriteAligned(img, ov, a, data), b) ==
            if a <= b < a + |data| then data[b - a] else SpecByte(img, ov, b)
  {
    PlaceInPage(a, b, |data|);
    var t, o, after := SpecTag(a), a % SPEC_PAGE, WriteAligned(img, ov, a, data);
    ByteOfPage(img, ov, b);
    ByteOfPage(img, after, b);
    assert PageOf(img, after, t) == Splice(PageOf(img, ov, t), o, data);
    SpliceAt(PageOf(img, ov, t), o, data, b - t);
  }

  lemma SpliceAt(page: seq<byte>, o: nat, data: seq<byte>, j: nat)
    requires o + |data| <= |page| && j < |page|
    ensures Splice(page, o, data)[j] == if o <= j < o + |data| then data[j - o] else page[j]
  {
  }

  /** An accepted write changes exactly its bytes, a refused one none. */
  lemma WriteAlignedBytes(img: Image, ov: Overlay, a: nat, data: seq<byte>, b: nat)
    requires IsImage(img) && IsOverlay(ov) && a < SPACE && a % SPEC_PAGE + |data| <= SPEC_PAGE
    ensures SpecByte(img, WriteAligned(img, ov, a, data), b) ==
            if Accepts(ov, a) && a <= b < a + |data| then data[b - a] else SpecByte(img, ov, b)
  {
    PlaceInPage(a, b, |data|);
    if Accepts(ov, a) && SpecTag(b) == SpecTag(a) {
      WriteInSamePage(img, ov, a, data, b);
    }
  }

  // ---- Accesses of any size ----

  /** A chunk within a small page lies within a page of the image, too. */
  lemma SmallInLarge(a: nat, n: nat)
    requires a % SPEC_PAGE + n <= SPEC_PAGE
    ensures a % PAGE + n <= PAGE
  {
    var q := a / PAGE;
    assert a == q * PAGE + a % PAGE && PAGE == 256 * SPEC_PAGE;
    assert a % SPEC_PAGE == (a % PAGE) % SPEC_PAGE by {
      assert a == (q * 256) * SPEC_PAGE + a % PAGE;
    }
  }

  /** The overlay after writing `done` from `start` on: each byte of an accepted page has
      been replaced, every other byte is as before. */
  ghost predicate Overwritten(img: Image, before: Overlay, now: Overlay, start: nat, done: seq<byte>) {
    && IsImage(img) && IsOverlay(before) && IsOverlay(now)
    && before.Keys <= now.Keys
    && (|before| <= LIMIT ==> |now| <= LIMIT)
    && (forall t: nat :: t in now ==> t in before || SpecReached(start, |done|, t))
    && forall b: nat {:trigger ByteOverwritten(img, before, now, start, done, b)} :: b < SPACE ==>
         ByteOverwritten(img, before, now, start, done, b)
  }

  /** The access of `n` bytes reaches the page at `t`. */
  ghost predicate SpecReached(start: nat, n: nat, t: nat) {
    exists k: nat :: k < n && SpecTag(Advance(start, k)) == t
  }

  lemma ReachedOn(start: nat, done: nat, n: nat, t: nat)
    requires done < n
    ensures SpecReached(start, done, t) || t == SpecTag(Advance(start, done)) ==> SpecReached(start, n, t)
  {
    if t == SpecTag(Advance(start, done)) {
      assert done < n;
    }
  }

  ghost predicate ByteOverwritten(img: Image, before: Overlay, now: Overlay, start: nat, done: seq<byte>, b: nat)
    requires IsImage(img) && IsOverlay(before) && IsOverlay(now)
  {
    if Offset(start, b) < |done| then
      if SpecTag(b) in now then SpecByte(img, now, b) == done[Offset(start, b)]
      else SpecByte(img, now, b) == SpecByte(img, before, b) && |now| >= LIMIT
    else SpecByte(img, now, b) == SpecByte(img, before, b)
  }

  lemma NothingOverwritten(img: Image, ov: Overlay, start: nat)
    requires IsImage(img) && IsOverlay(ov)
    ensures Overwritten(img, ov, ov, start, [])
  {
  }

  lemma OverwriteMore(img: Image, before: Overlay, now: Overlay, start: nat, done: seq<byte>,
                      cur: nat, part: seq<byte>, after: Overlay, all: seq<byte>)
    requires Overwritten(img, before, now, start, done)
    requires start < SPACE && |done| + |part| <= SPACE && part != []
    requires cur == Advance(start, |done|) && cur % SPEC_PAGE + |part| <= SPEC_PAGE
    requires after == WriteAligned(img, now, cur, part) && all == done + part
    ensures Overwritten(img, before, after, start, all)
  {
    SmallInLarge(cur, |part|);
    forall t: nat | t in after
      ensures t in before || SpecReached(start, |all|, t)
    {
      ReachedOn(start, |done|, |all|, t);
    }
    GrowsByOne(now, after, SpecTag(cur));
    forall b: nat | b < SPACE
      ensures ByteOverwritten(img, before, after, start, all, b)
    {
      assert ByteOverwritten(img, before, now, start, done, b);
      WriteAlignedBytes(img, now, cur, part, b);
      ChunkOffsets(start, |done|, |part|, b);
      PlaceInPage(cur, b, |part|);
      OverwriteByte(img, before, now, after, start, done, cur, part, all, b, Offset(start, b));
    }
  }

  lemma OverwriteByte(img: Image, before: Overlay, now: Overlay, after: Overlay, start: nat, done: seq<byte>,
                      cur: nat, part: seq<byte>, all: seq<byte>, b: nat, o: nat)
    requires IsImage(img) && IsOverlay(before) && IsOverlay(now) && IsOverlay(after) && all == done + part
    requires o == Offset(start, b) && ByteOverwritten(img, before, now, start, done, b)
    requires SpecByte(img, after, b) == if Accepts(now, cur) && cur <= b < cur + |part| then part[b - cur] else SpecByte(img, now, b)
    requires cur <= b < cur + |part| <==> |done| <= o < |done| + |part|
    requires cur <= b < cur + |part| ==> o == |done| + (b - cur) && SpecTag(b) == SpecTag(cur)
    requires after.Keys == if Accepts(now, cur) then now.Keys + {SpecTag(cur)} else now.Keys
    requires |now| >= LIMIT ==> |after| == |now| && after.Keys == now.Keys
    ensures ByteOverwritten(img, before, after, start, all, b)
  {
  }

  /** A write to a page that is there, or a new one, and how many pages there are then. */
  lemma AcceptedWrite(img: Image, ov: Overlay, a: nat, data: seq<byte>, page: seq<byte>)
    requires IsImage(img) && IsOverlay(ov) && a < SPACE && a % SPEC_PAGE + |data| <= SPEC_PAGE
    requires Accepts(ov, a) && page == if SpecTag(a) in ov then ov[SpecTag(a)] else BasePage(img, SpecTag(a))
    ensures a % SPEC_PAGE + |data| <= |page|
    ensures WriteAligned(img, ov, a, data) == ov[SpecTag(a) := Splice(page, a % SPEC_PAGE, data)]
    ensures |WriteAligned(img, ov, a, data)| == if SpecTag(a) in ov then |ov| else |ov| + 1
  {
    var after := WriteAligned(img, ov, a, data);
    assert |after| == |after.Keys| && |ov| == |ov.Keys|;
    if SpecTag(a) in ov {
      assert after.Keys == ov.Keys;
    }
  }

  lemma GrowsByOne(now: Overlay, after: Overlay, t: nat)
    requires after.Keys == now.Keys || (after.Keys == now.Keys + {t} && (t in now || |now| < LIMIT))
    ensures |after| >= |now| && (|now| <= LIMIT ==> |after| <= LIMIT)
    ensures |now| >= LIMIT ==> |after| == |now| && after.Keys == now.Keys
  {
    assert |after| == |after.Keys| && |now| == |now.Keys|;
    if t in now {
      assert now.Keys + {t} == now.Keys;
    }
  }

  // ---- Sequences of writes ----

  datatype SpecWrite = SpecWrite(start: nat, data: seq<byte>)

  /** The overlays that a sequence of writes goes through, from an empty one. */
  ghost predicate History(img: Image, writes: seq<SpecWrite>, ovs: seq<Overlay>) {
    && |ovs| == |writes| + 1 && ovs[0] == map[]
    && forall i :: 0 <= i < |writes| ==> HistoryStep(img, writes, ovs, i)
  }

  ghost predicate HistoryStep(img: Image, writes: seq<SpecWrite>, ovs: seq<Overlay>, i: nat)
    requires |ovs| == |writes| + 1 && i < |writes|
  {
    Overwritten(img, ovs[i], ovs[i + 1], writes[i].start, writes[i].data)
  }

  /** The byte that the last accepted write among the first `n` left at `b`, else the
      byte of the image. */
  ghost function LastAccepted(img: Image, writes: seq<SpecWrite>, ovs: seq<Overlay>, n: nat, b: nat): byte
    requires IsImage(img) && |ovs| == |writes| + 1 && n <= |writes|
  {
    if n == 0 then ByteAt(img, b)
    else
      var w := writes[n - 1];
      if Offset(w.start, b) < |w.data| && SpecTag(b) in ovs[n] then w.data[Offset(w.start, b)]
      else LastAccepted(img, writes, ovs, n - 1, b)
  }

  /** Speculative code sees, at every address, the last accepted write or else the image,
      and there are never more pages than the limit. */
  lemma {:induction false} SeesLastAccepted(img: Image, writes: seq<SpecWrite>, ovs: seq<Overlay>, n: nat, b: nat)
    requires IsImage(img) && History(img, writes, ovs) && n <= |writes| && b < SPACE
    ensures IsOverlay(ovs[n]) && |ovs[n]| <= LIMIT
    ensures SpecByte(img, ovs[n], b) == LastAccepted(img, writes, ovs, n, b)
  {
    if n > 0 {
      SeesLastAccepted(img, writes, ovs, n - 1, b);
      assert HistoryStep(img, writes, ovs, n - 1);
      assert ByteOverwritten(img, ovs[n - 1], ovs[n], writes[n - 1].start, writes[n - 1].data, b);
    }
  }

  // ---- The object ----

  class SpecMem {
    const mem: Memory
    const safeMode: bool
    var pages: Overlay
    var pageCount: int

    ghost predicate Valid()
      reads this, mem, mem.pages, mem.all, set i, j | 0 <= i < |mem.chains| && 0 <= j < |mem.chains[i]| :: mem.chains[i][j]
    {
      mem.Valid() && IsImage(mem.image) && IsOverlay(pages) && pageCount == |pages| <= LIMIT
    }

    constructor (mem: Memory, safeMode: bool)
      requires mem.Valid()
      ensures Valid() && this.mem == mem && this.safeMode == safeMode && pages == map[]
    {
      this.mem := mem;
      this.safeMode := safeMode;
      pages := map[];
      pageCount := 0;
      mem.ViewIsImage();
    }

    /** Read from the image in unsafe mode: the address may be invalid. */
    method ReadBase(a: nat, n: nat) returns (out: seq<byte>)
      requires mem.Valid() && a < SPACE && n <= SPACE
      modifies mem`safe, mem`chains, mem.pages, mem.all
      ensures mem.Valid() && mem.image == old(mem.image) && mem.all == old(mem.all)
      ensures IsImage(mem.image) && |out| == n && BytesFrom(mem.image, a, out)
      ensures mem.safe == safeMode
    {
      mem.safe := false;
      var ok;
      ok, out := mem.ReadBytes(a, n, Access.Read);
      mem.safe := safeMode;
    }

    method ReadAligned(a: nat, n: nat) returns (out: seq<byte>)
      requires Valid() && a < SPACE && a % SPEC_PAGE + n <= SPEC_PAGE
      modifies mem`safe, mem`chains, mem.pages, mem.all
      ensures Valid() && mem.image == old(mem.image) && pages == old(pages) && mem.all == old(mem.all)
      ensures |out| == n && forall j :: 0 <= j < n ==> out[j] == SpecByte(mem.image, pages, a + j)
      ensures old(mem.safe) == safeMode ==> mem.safe == safeMode
    {
      var t, o := SpecTag(a), a % SPEC_PAGE;
      if t in pages {
        out := pages[t][o..o + n];
      } else {
        out := ReadBase(a, n);
      }
      forall j | 0 <= j < n
        ensures out[j] == SpecByte(mem.image, pages, a + j)
      {
        SameSpecPage(a, a + j);
        SmallInLarge(a, n);
        NoWrapInPage(a, n);
        assert Advance(a, j) == a + j;
      }
    }

    method WriteOne(a: nat, data: seq<byte>)
      requires Valid() && a < SPACE && a % SPEC_PAGE + |data| <= SPEC_PAGE
      modifies this`pages, this`pageCount, mem`safe, mem`chains, mem.pages, mem.all
      ensures Valid() && mem.image == old(mem.image) && mem.all == old(mem.all)
      ensures pages == WriteAligned(mem.image, old(pages), a, data)
      ensures old(mem.safe) == safeMode ==> mem.safe == safeMode
    {
      var t := SpecTag(a);
      if t in pages {
        StorePage(a, data, pages[t]);
      } else if pageCount < LIMIT {
        var page := CreatePage(t);
        StorePage(a, data, page);
        pageCount := pageCount + 1;
      }
    }

    method StorePage(a: nat, data: seq<byte>, page: seq<byte>)
      requires Valid() && a < SPACE && a % SPEC_PAGE + |data| <= SPEC_PAGE && Accepts(pages, a)
      requires page == if SpecTag(a) in pages then pages[SpecTag(a)] else BasePage(mem.image, SpecTag(a))
      modifies this`pages
      ensures mem.Valid() && IsImage(mem.image)
      ensures pages == WriteAligned(mem.image, old(pages), a, data)
      ensures |pages| == if SpecTag(a) in old(pages) then |old(pages)| else |old(pages)| + 1
    {
      AcceptedWrite(mem.image, pages, a, data, page);
      pages := pages[SpecTag(a) := Splice(page, a % SPEC_PAGE, data)];
    }

    /** The bytes with which a new page starts. */
    method CreatePage(t: nat) returns (page: seq<byte>)
      requires Valid() && t < SPACE && t % SPEC_PAGE == 0
      modifies mem`safe, mem`chains, mem.pages, mem.all
      ensures Valid() && mem.image == old(mem.image) && pages == old(pages) && mem.all == old(mem.all)
      ensures page == BasePage(mem.image, t)
      ensures old(mem.safe) == safeMode ==> mem.safe == safeMode
    {
      page := ReadBase(t, SPEC_PAGE);
      SmallInLarge(t, SPEC_PAGE);
      NoWrapInPage(t, SPEC_PAGE);
      forall j | 0 <= j < SPEC_PAGE
        ensures page[j] == ByteAt(mem.image, t + j)
      {
        assert Advance(t, j) == t + j;
      }
    }

    /** The part of an access of `left` bytes at `a` that lies in the page of `a`. */
    static function SpecChunk(a: nat, left: nat): (n: nat)
      ensures n <= left && a % SPEC_PAGE + n <= SPEC_PAGE && (left > 0 ==> n > 0)
    {
      if left < SPEC_PAGE - a % SPEC_PAGE then left else SPEC_PAGE - a % SPEC_PAGE
    }

    /** A speculative read, page by page. */
    method Read(a: nat, n: nat) returns (out: seq<byte>)
      requires Valid() && a < SPACE && n <= SPACE
      modifies mem`safe, mem`chains, mem.pages, mem.all
      ensures Valid() && mem.image == old(mem.image) && pages == old(pages) && mem.all == old(mem.all)
      ensures |out| == n && SpecBytesFrom(mem.image, pages, a, out)
      ensures old(mem.safe) == safeMode ==> mem.safe == safeMode
    {
      ghost var img := mem.image;
      var cur := a;
      out := [];
      while |out| < n
        invariant Valid() && mem.image == img && mem.all == old(mem.all)
        invariant old(mem.safe) == safeMode ==> mem.safe == safeMode
        invariant |out| <= n && cur == Advance(a, |out|)
        invariant SpecBytesFrom(img, pages, a, out)
        decreases n - |out|
      {
        var part := ReadAligned(cur, SpecChunk(cur, n - |out|));
        MoreSpecBytes(img, pages, a, out, cur, part);
        out := out + part;
        cur := Advance(a, |out|);
      }
    }

    /** A speculative write, page by page: accepted pages take their bytes, the others are
        ignored, and the image stays as it is. */
    method Write(a: nat, buf: seq<byte>)
      requires Valid() && a < SPACE && |buf| <= SPACE
      modifies this`pages, this`pageCount, mem`safe, mem`chains, mem.pages, mem.all
      ensures Valid() && mem.image == old(mem.image) && mem.all == old(mem.all)
      ensures Overwritten(mem.image, old(pages), pages, a, buf)
      ensures old(mem.safe) == safeMode ==> mem.safe == safeMode
    {
      ghost var img := mem.image;
      var cur := a;
      var done: nat := 0;
      NothingOverwritten(img, pages, a);
      assert buf[..0] == [];
      while done < |buf|
        invariant Valid() && mem.image == img && mem.all == old(mem.all)
        invariant old(mem.safe) == safeMode ==> mem.safe == safeMode
        invariant done <= |buf| && cur == Advance(a, done)
        invariant Overwritten(img, old(pages), pages, a, buf[..done])
        decreases |buf| - done
      {
        done := WriteNext(old(pages), a, cur, buf, done);
        cur := Advance(a, done);
      }
      assert buf[..done] == buf;
    }

    method WriteNext(ghost before: Overlay, ghost a: nat, cur: nat, buf: seq<byte>, done: nat) returns (now: nat)
      requires Valid() && a < SPACE && done < |buf| <= SPACE && cur == Advance(a, done)
      requires Overwritten(mem.image, before, pages, a, buf[..done])
      modifies this`pages, this`pageCount, mem`safe, mem`chains, mem.pages, mem.all
      ensures Valid() && mem.image == old(mem.image) && mem.all == old(mem.all)
      ensures done < now <= |buf| && Overwritten(mem.image, before, pages, a, buf[..now])
      ensures old(mem.safe) == safeMode ==> mem.safe == safeMode
    {
      now := done + SpecChunk(cur, |buf| - done);
      var part := buf[done..now];
      ghost var first, last := buf[..done], pages;
      WriteOne(cur, part);
      assert buf[..now] == first + part;
      OverwriteMore(mem.image, before, last, a, first, cur, part, pages, buf[..now]);
    }

    method Clear()
      requires Valid()
      modifies this`pages, this`pageCount
      ensures Valid() && forall a: nat :: SpecByte(mem.image, pages, a) == ByteAt(mem.image, a)
    {
      pages := map[];
      pageCount := 0;
    }
  }

  /** The bytes are those that speculative code sees from `start` on. */
  ghost predicate SpecBytesFrom(img: Image, ov: Overlay, start: nat, out: seq<byte>)
    requires IsImage(img) && IsOverlay(ov)
  {
    forall k: nat :: k < |out| ==> out[k] == SpecByte(img, ov, Advance(start, k))
  }

  lemma MoreSpecBytes(img: Image, ov: Overlay, start: nat, out: seq<byte>, cur: nat, part: seq<byte>)
    requires IsImage(img) && IsOverlay(ov) && start < SPACE && |out| + |part| <= SPACE
    requires SpecBytesFrom(img, ov, start, out) && cur == Advance(start, |out|)
    requires cur % SPEC_PAGE + |part| <= SPEC_PAGE
    requires forall j :: 0 <= j < |part| ==> part[j] == SpecByte(img, ov, cur + j)
    ensures SpecBytesFrom(img, ov, start, out + part)
  {
    SmallInLarge(cur, |part|);
    forall k: nat | k < |out + part|
      ensures (out + part)[k] == SpecByte(img, ov, Advance(start, k))
    {
      if k >= |out| {
        InChunk(start, |out|, |part|, k);
        assert part[k - |out|] == SpecByte(img, ov, cur + (k - |out|));
      }
    }
  }
}
