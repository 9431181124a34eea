/** Memory images as maps from pages to contents, and the flat view of them: one byte at
    every address of a 32-bit space, zero where no page is mapped. */
module MemoryImage {

  newtype byte = x | 0 <= x < 256

  const PAGE: nat := 4096
  const SPACE: nat := 0x1_0000_0000

  datatype Access = Read | Write | Exec | Init | Modif

  /** What a page holds: its permissions and its bytes. */
  datatype Page = Page(perm: set<Access>, bytes: seq<byte>)

  type Image = map<nat, Page>

  function TagOf(a: nat): (t: nat)
    ensures t <= a < t + PAGE && t % PAGE == 0
  {
    a - a % PAGE
  }

  predicate IsTag(t: nat) {
    t % PAGE == 0 && t < SPACE
  }

  predicate IsImage(img: Image) {
    forall t :: t in img ==> IsTag(t) && |img[t].bytes| == PAGE
  }

  function Zeros(n: nat): (s: seq<byte>)
    ensures |s| == n && forall i :: 0 <= i < n ==> s[i] == 0
  {
    seq(n, _ => 0)
  }

  function ByteAt(img: Image, a: nat): byte
    requires IsImage(img)
  {
    if TagOf(a) in img then img[TagOf(a)].bytes[a % PAGE] else 0
  }

  // ---- An access within one page ----

  predicate Reads(kind: Access) {
    kind == Read || kind == Exec
  }

  predicate Writes(kind: Access) {
    kind == Write || kind == Init
  }

  /** In safe mode, the page must exist and permit the access. */
  predicate Permitted(img: Image, safe: bool, a: nat, kind: Access) {
    safe ==> TagOf(a) in img && kind in img[TagOf(a)].perm
  }

  /** The page that an unsafe write creates has all permissions. */
  function FreshPage(): Page {
    Page({Read, Write, Exec, Init}, Zeros(PAGE))
  }

  /** Replace some bytes, from position `o` on. */
  function Splice(page: seq<byte>, o: nat, data: seq<byte>): (s: seq<byte>)
    requires o + |data| <= |page|
    ensures |s| == |page|
    ensures forall j :: 0 <= j < |s| ==> s[j] == if o <= j < o + |data| then data[j - o] else page[j]
  {
    page[..o] + data + page[o + |data|..]
  }

  /** Replace bytes of one page, mapping it first if it is not there. */
  function WriteInPage(img: Image, a: nat, data: seq<byte>, kind: Access): (r: Image)
    requires IsImage(img) && a < SPACE && a % PAGE + |data| <= PAGE
    ensures IsImage(r)
    ensures r.Keys == img.Keys + {TagOf(a)}
  {
    var t, o := TagOf(a), a % PAGE;
    var page := if t in img then img[t] else FreshPage();
    var perm := if kind == Write then page.perm + {Modif} else page.perm;
    img[t := Page(perm, Splice(page.bytes, o, data))]
  }

  /** The bytes written are there, and all others are as before. */
  lemma WriteInPageBytes(img: Image, a: nat, data: seq<byte>, kind: Access, b: nat)
    requires IsImage(img) && a < SPACE && a % PAGE + |data| <= PAGE
    ensures ByteAt(WriteInPage(img, a, data, kind), b) ==
            if a <= b < a + |data| then data[b - a] else ByteAt(img, b)
  {
    var t := TagOf(a);
    if TagOf(b) == t {
      assert b % PAGE == b - t && a % PAGE == a - t;
    } else if a <= b < a + |data| {
      SamePage(a, b);
    }
  }

  lemma SamePage(a: nat, b: nat)
    requires a <= b < a - a % PAGE + PAGE
    ensures TagOf(b) == TagOf(a)
  {
  }

  function ReadInPage(img: Image, a: nat, n: nat): (s: seq<byte>)
    requires IsImage(img) && a % PAGE + n <= PAGE
    ensures |s| == n
  {
    if TagOf(a) in img then img[TagOf(a)].bytes[a % PAGE..a % PAGE + n] else Zeros(n)
  }

  lemma ReadInPageBytes(img: Image, a: nat, n: nat, j: nat)
    requires IsImage(img) && a % PAGE + n <= PAGE && j < n
    ensures ReadInPage(img, a, n)[j] == ByteAt(img, a + j)
  {
    SamePage(a, a + j);
    assert (a + j) % PAGE == a % PAGE + j;
  }

  // ---- Addresses that go round ----

  /** How far `a` lies after `start`, going round the address space. */
  function Offset(start: nat, a: nat): nat {
    (a - start) % SPACE
  }

  function Advance(start: nat, n: nat): nat {
    (start + n) % SPACE
  }

  /** The addresses of a chunk within a page are the next ones. */
  lemma ChunkOffsets(start: nat, done: nat, n: nat, a: nat)
    requires start < SPACE && a < SPACE && done + n <= SPACE
    requires Advance(start, done) % PAGE + n <= PAGE
    ensures Advance(start, done) <= a < Advance(start, done) + n <==> done <= Offset(start, a) < done + n
    ensures Advance(start, done) <= a < Advance(start, done) + n ==> Offset(start, a) == done + (a - Advance(start, done))
  {
    var cur := Advance(start, done);
    NoWrapInPage(cur, n);
    if a >= start {
      assert Offset(start, a) == a - start;
    } else {
      assert (a - start) % SPACE == a - start + SPACE;
    }
    if start + done < SPACE {
      assert cur == start + done;
    } else {
      assert cur == start + done - SPACE;
    }
  }

  lemma NoWrapInPage(a: nat, n: nat)
    requires a < SPACE && a % PAGE + n <= PAGE
    ensures a + n <= SPACE
  {
    assert SPACE == 1048576 * PAGE;
  }

  // ---- Accesses of any size, chunk by chunk ----

  /** All bytes from `start` on may be accessed. */
  ghost predicate MayAccess(img: Image, safe: bool, kind: Access, start: nat, n: nat) {
    forall k: nat :: k < n ==> Permitted(img, safe, Advance(start, k), kind)
  }

  /** The bytes are those from `start` on. */
  ghost predicate BytesFrom(img: Image, start: nat, out: seq<byte>)
    requires IsImage(img)
  {
    forall k: nat :: k < |out| ==> out[k] == ByteAt(img, Advance(start, k))
  }

  /** The image with the bytes from `start` on replaced. */
  ghost predicate BytesReplaced(before: Image, after: Image, start: nat, data: seq<byte>)
    requires IsImage(before) && IsImage(after)
  {
    forall b: nat :: b < SPACE ==> ByteReplaced(before, after, start, data, b)
  }

  ghost predicate ByteReplaced(before: Image, after: Image, start: nat, data: seq<byte>, b: nat)
    requires IsImage(before) && IsImage(after)
  {
    ByteAt(after, b) == if Offset(start, b) < |data| then data[Offset(start, b)] else ByteAt(before, b)
  }

  lemma InChunk(start: nat, done: nat, chunk: nat, k: nat)
    requires start < SPACE && done + chunk <= SPACE && done <= k < done + chunk
    requires Advance(start, done) % PAGE + chunk <= PAGE
    ensures Advance(start, k) == Advance(start, done) + (k - done)
    ensures TagOf(Advance(start, k)) == TagOf(Advance(start, done))
  {
    var cur := Advance(start, done);
    NoWrapInPage(cur, chunk);
    SamePage(cur, cur + (k - done));
  }

  /** Permission is the same for all bytes of a chunk. */
  lemma MayAccessMore(img: Image, safe: bool, kind: Access, start: nat, done: nat, chunk: nat)
    requires start < SPACE && done + chunk <= SPACE && chunk >= 1
    requires Advance(start, done) % PAGE + chunk <= PAGE
    ensures MayAccess(img, safe, kind, start, done) && Permitted(img, safe, Advance(start, done), kind) ==>
            MayAccess(img, safe, kind, start, done + chunk)
  {
    if MayAccess(img, safe, kind, start, done) && Permitted(img, safe, Advance(start, done), kind) {
      forall k: nat | k < done + chunk
        ensures Permitted(img, safe, Advance(start, k), kind)
      {
        if k >= done {
          InChunk(start, done, chunk, k);
        }
      }
    }
  }

  lemma MoreBytes(img: Image, start: nat, out: seq<byte>, part: seq<byte>)
    requires IsImage(img) && start < SPACE && |out| + |part| <= SPACE && BytesFrom(img, start, out)
    requires Advance(start, |out|) % PAGE + |part| <= PAGE
    requires part == ReadInPage(img, Advance(start, |out|), |part|)
    ensures BytesFrom(img, start, out + part)
  {
    forall k: nat | k < |out + part|
      ensures (out + part)[k] == ByteAt(img, Advance(start, k))
    {
      if k >= |out| {
        InChunk(start, |out|, |part|, k);
        ReadInPageBytes(img, Advance(start, |out|), |part|, k - |out|);
      }
    }
  }

  lemma MoreReplaced(before: Image, now: Image, start: nat, done: seq<byte>, part: seq<byte>, kind: Access)
    requires IsImage(before) && IsImage(now) && start < SPACE && |done| + |part| <= SPACE
    requires Advance(start, |done|) % PAGE + |part| <= PAGE
    requires BytesReplaced(before, now, start, done)
    ensures BytesReplaced(before, WriteInPage(now, Advance(start, |done|), part, kind), start, done + part)
  {
    var cur := Advance(start, |done|);
    forall b: nat | b < SPACE
      ensures ByteReplaced(before, WriteInPage(now, cur, part, kind), start, done + part, b)
    {
      assert ByteReplaced(before, now, start, done, b);
      WriteInPageBytes(now, cur, part, kind, b);
      ChunkOffsets(start, |done|, |part|, b);
    }
  }

  lemma Denied(img: Image, safe: bool, kind: Access, start: nat, k: nat, n: nat)
    requires k < n && !Permitted(img, safe, Advance(start, k), kind)
    ensures !MayAccess(img, safe, kind, start, n)
  {
  }

  /** Writing `done` from `start` on was permitted, and turned one image into the other.
      In safe mode it mapped nothing, and it changed no permission to access. */
  ghost predicate Written(before: Image, now: Image, safe: bool, kind: Access, start: nat, done: seq<byte>) {
    && IsImage(before) && IsImage(now)
    && MayAccess(before, safe, kind, start, |done|)
    && BytesReplaced(before, now, start, done)
    && before.Keys <= now.Keys
    && (safe ==> now.Keys == before.Keys)
    && (forall b: nat :: Permitted(now, safe, b, kind) == Permitted(before, safe, b, kind))
    && PagesKept(before, now, kind, start, |done|)
  }

  /** The access of `n` bytes reaches the page at `t`. */
  ghost predicate Reached(start: nat, n: nat, t: nat) {
    exists k: nat :: k < n && TagOf(Advance(start, k)) == t
  }

  /** The pages are those that were there and those that the access has reached. Each keeps
      its permissions, a new one has all of them, and only a write marks those reached as
      modified. */
  ghost predicate PagesKept(before: Image, now: Image, kind: Access, start: nat, n: nat) {
    forall t: nat :: PageKept(before, now, kind, start, n, t)
  }

  ghost predicate PageKept(before: Image, now: Image, kind: Access, start: nat, n: nat, t: nat) {
    && (t in now <==> t in before || Reached(start, n, t))
    && (t in now ==>
          now[t].perm == (if t in before then before[t].perm else {Read, Write, Exec, Init})
                         + (if kind == Write && Reached(start, n, t) then {Modif} else {}))
  }

  /** A chunk reaches one page. */
  lemma ReachedMore(start: nat, done: nat, chunk: nat, t: nat)
    requires start < SPACE && done + chunk <= SPACE && chunk >= 1
    requires Advance(start, done) % PAGE + chunk <= PAGE
    ensures Reached(start, done + chunk, t) <==> Reached(start, done, t) || t == TagOf(Advance(start, done))
  {
    if k: nat :| k < done + chunk && TagOf(Advance(start, k)) == t {
      if k >= done {
        InChunk(start, done, chunk, k);
      }
    }
    if t == TagOf(Advance(start, done)) {
      assert done < done + chunk;
    }
  }

  lemma MorePagesKept(before: Image, now: Image, kind: Access, start: nat, done: nat, part: seq<byte>)
    requires IsImage(before) && IsImage(now) && PagesKept(before, now, kind, start, done)
    requires start < SPACE && done + |part| <= SPACE && part != []
    requires Advance(start, done) % PAGE + |part| <= PAGE
    ensures PagesKept(before, WriteInPage(now, Advance(start, done), part, kind), kind, start, done + |part|)
  {
    var after, n := WriteInPage(now, Advance(start, done), part, kind), done + |part|;
    forall t: nat
      ensures PageKept(before, after, kind, start, n, t)
    {
      assert PageKept(before, now, kind, start, done, t);
      ReachedMore(start, done, |part|, t);
    }
  }

  /** So in safe mode a write changes nothing about which bytes may be accessed how. */
  lemma PermissionsStay(before: Image, now: Image, kind: Access, start: nat, done: seq<byte>, b: nat, other: Access)
    requires Written(before, now, true, kind, start, done) && other != Modif
    ensures Permitted(now, true, b, other) == Permitted(before, true, b, other)
  {
    assert PageKept(before, now, kind, start, |done|, TagOf(b));
  }

  lemma WriteDenied(before: Image, now: Image, safe: bool, kind: Access, start: nat, done: seq<byte>, n: nat)
    requires Written(before, now, safe, kind, start, done) && |done| < n
    requires !Permitted(now, safe, Advance(start, |done|), kind)
    ensures !MayAccess(before, safe, kind, start, n)
  {
    Denied(before, safe, kind, start, |done|, n);
  }

  lemma NothingWritten(img: Image, safe: bool, kind: Access, start: nat)
    requires IsImage(img)
    ensures Written(img, img, safe, kind, start, [])
  {
    assert forall t: nat :: !Reached(start, 0, t);
    assert forall t: nat :: PageKept(img, img, kind, start, 0, t);
  }

  lemma WrittenMore(before: Image, now: Image, after: Image, safe: bool, kind: Access, start: nat, done: seq<byte>,
                    cur: nat, part: seq<byte>, all: seq<byte>)
    requires Written(before, now, safe, kind, start, done) && Writes(kind)
    requires start < SPACE && |done| + |part| <= SPACE && part != []
    requires cur == Advance(start, |done|) && cur % PAGE + |part| <= PAGE
    requires Permitted(now, safe, cur, kind)
    requires after == WriteInPage(now, cur, part, kind) && all == done + part
    ensures Written(before, after, safe, kind, start, all)
  {
    MayAccessMore(before, safe, kind, start, |done|, |part|);
    MoreReplaced(before, now, start, done, part, kind);
    MorePagesKept(before, now, kind, start, |done|, part);
    forall b: nat
      ensures Permitted(after, safe, b, kind) == Permitted(before, safe, b, kind)
    {
      SamePermissions(now, safe, cur, part, kind, b);
    }
  }

  /** Writing in safe mode maps nothing and changes no permission to access. */
  lemma SamePermissions(img: Image, safe: bool, a: nat, data: seq<byte>, kind: Access, b: nat)
    requires IsImage(img) && a < SPACE && a % PAGE + |data| <= PAGE && Writes(kind)
    requires Permitted(img, safe, a, kind)
    ensures Permitted(WriteInPage(img, a, data, kind), safe, b, kind) == Permitted(img, safe, b, kind)
  {
  }

  /** What was written is what is read: the round trip through any number of pages. */
  lemma WriteThenRead(before: Image, after: Image, safe: bool, kind: Access, start: nat, data: seq<byte>)
    requires start < SPACE && |data| <= SPACE && Written(before, after, safe, kind, start, data)
    ensures BytesFrom(after, start, data)
    ensures MayAccess(before, safe, Read, start, |data|) ==> MayAccess(after, safe, Read, start, |data|)
  {
    if MayAccess(before, safe, Read, start, |data|) && safe {
      forall k: nat | k < |data|
        ensures Permitted(after, safe, Advance(start, k), Read)
      {
        PermissionsStay(before, after, kind, start, data, Advance(start, k), Read);
      }
    }
    forall k: nat | k < |data|
      ensures data[k] == ByteAt(after, Advance(start, k))
    {
      var b := Advance(start, k);
      assert ByteReplaced(before, after, start, data, b);
      OffsetOfAdvance(start, k);
    }
  }

  lemma OffsetOfAdvance(start: nat, k: nat)
    requires start < SPACE && k < SPACE
    ensures Offset(start, Advance(start, k)) == k
  {
    if start + k < SPACE {
      assert Advance(start, k) == start + k;
    } else {
      assert Advance(start, k) == start + k - SPACE;
      assert (k - SPACE) % SPACE == k;
    }
  }
}
