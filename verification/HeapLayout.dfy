/**
  The kernel heap as a layout of memory: a list of chunks obtained from the page allocator, each
  holding an address-ordered list of blocks. A block is a 40-byte header followed by its body; the
  body holds one alignment byte and the 16-aligned region handed to the caller.

  This module says what an allocation and a release do to a layout, without any pointer; module
  `Heap` has the linked headers and the search loops, and is proved against it.
 */
module HeapLayout {

  const MAJOR := 40        // sizeof(AllocMajor)
  const MINOR := 40        // sizeof(AllocMinor)
  const ALIGNMENT := 16
  const ALIGN_INFO := 16
  const PAGE := 0x1000
  const PAGE_COUNT := 16
  const U32 := 0x1_0000_0000
  const U64 := 0x1_0000_0000_0000_0000

  datatype Block = Block(addr: int, size: int, req: int)
  datatype Chunk = Chunk(base: int, size: int, blocks: seq<Block>)
  type Layout = seq<Chunk>

  // ----- Geometry --------------------------------------------------------------------------

  function End(b: Block): int { b.addr + MINOR + b.size }

  /** Gap `k` of a chunk is the free space just before block `k`; the last one runs to the end. */
  function GapLo(c: Chunk, k: int): int
    requires 0 <= k <= |c.blocks|
  {
    if k == 0 then c.base + MAJOR else End(c.blocks[k - 1])
  }

  function GapHi(c: Chunk, k: int): int
    requires 0 <= k <= |c.blocks|
  {
    if k == |c.blocks| then c.base + c.size else c.blocks[k].addr
  }

  function Gap(c: Chunk, k: int): int
    requires 0 <= k <= |c.blocks|
  {
    GapHi(c, k) - GapLo(c, k)
  }

  predicate PageAligned(a: int) { a % 0x1000 == 0 }

  ghost predicate BlockOk(c: Chunk, b: Block) {
    && 0 <= b.req && b.size == b.req + ALIGNMENT + ALIGN_INFO
    && c.base + MAJOR <= b.addr && End(b) <= c.base + c.size
  }

  ghost predicate ChunkOk(c: Chunk) {
    && 0 < c.base && PageAligned(c.base) && c.base + c.size <= U64
    && MAJOR <= c.size < U32 && PageAligned(c.size)
    && (forall j | 0 <= j < |c.blocks| :: BlockOk(c, c.blocks[j]))
    && (forall j, k | 0 <= j < k < |c.blocks| :: End(c.blocks[j]) <= c.blocks[k].addr)
  }

  ghost predicate Apart(c: Chunk, d: Chunk) {
    c.base + c.size <= d.base || d.base + d.size <= c.base
  }

  ghost predicate LayoutOk(l: Layout) {
    && (forall i | 0 <= i < |l| :: ChunkOk(l[i]))
    && (forall i, j | 0 <= i < j < |l| :: Apart(l[i], l[j]))
  }

  ghost predicate NoEmptyChunk(l: Layout) {
    forall i | 0 <= i < |l| :: |l[i].blocks| > 0
  }

  // ----- Accounting ------------------------------------------------------------------------

  function Payload(bs: seq<Block>): int {
    if bs == [] then 0 else bs[0].size + Payload(bs[1..])
  }

  /** What the chunk header's `usage` field counts: its own header, and header and body of every block. */
  function Usage(c: Chunk): int { MAJOR + Headers(|c.blocks|) + Payload(c.blocks) }

  function Headers(n: int): int { 40 * n }

  function FreeBytes(c: Chunk): int { c.size - Usage(c) }

  function TotalPayload(l: Layout): int {
    if l == [] then 0 else Payload(l[0].blocks) + TotalPayload(l[1..])
  }

  function TotalSize(l: Layout): int {
    if l == [] then 0 else l[0].size + TotalSize(l[1..])
  }

  function BlockCount(l: Layout): nat {
    if l == [] then 0 else |l[0].blocks| + BlockCount(l[1..])
  }

  lemma {:induction false} PayloadConcat(a: seq<Block>, b: seq<Block>)
    ensures Payload(a + b) == Payload(a) + Payload(b)
  {
    if a == [] {
      assert a + b == b;
    } else {
      assert (a + b)[1..] == a[1..] + b;
      PayloadConcat(a[1..], b);
    }
  }

  lemma {:induction false} TotalsConcat(a: Layout, b: Layout)
    ensures TotalPayload(a + b) == TotalPayload(a) + TotalPayload(b)
    ensures TotalSize(a + b) == TotalSize(a) + TotalSize(b)
    ensures BlockCount(a + b) == BlockCount(a) + BlockCount(b)
  {
    if a == [] {
      assert a + b == b;
    } else {
      assert (a + b)[1..] == a[1..] + b;
      TotalsConcat(a[1..], b);
    }
  }

  /** The totals of a layout, with chunk `i` singled out. */
  lemma TotalsAt(l: Layout, i: nat)
    requires i < |l|
    ensures TotalPayload(l) == TotalPayload(l[..i]) + Payload(l[i].blocks) + TotalPayload(l[i + 1..])
    ensures TotalSize(l) == TotalSize(l[..i]) + l[i].size + TotalSize(l[i + 1..])
    ensures BlockCount(l) == BlockCount(l[..i]) + |l[i].blocks| + BlockCount(l[i + 1..])
  {
    assert l == l[..i] + l[i..];
    TotalsConcat(l[..i], l[i..]);
    assert l[i..][1..] == l[i + 1..];
  }

  lemma {:induction false} PrefixFits(c: Chunk, k: int)
    requires ChunkOk(c) && 0 <= k <= |c.blocks|
    ensures c.base + MAJOR + Headers(k) + Payload(c.blocks[..k]) <= GapLo(c, k)
    decreases k
  {
    if k > 0 {
      PrefixFits(c, k - 1);
      assert c.blocks[..k] == c.blocks[..k - 1] + [c.blocks[k - 1]];
      PayloadConcat(c.blocks[..k - 1], [c.blocks[k - 1]]);
    }
  }

  lemma {:induction false} SuffixFits(c: Chunk, k: int)
    requires ChunkOk(c) && 0 <= k <= |c.blocks|
    ensures GapHi(c, k) + Headers(|c.blocks| - k) + Payload(c.blocks[k..]) <= c.base + c.size
    decreases |c.blocks| - k
  {
    if k < |c.blocks| {
      SuffixFits(c, k + 1);
      assert c.blocks[k..] == [c.blocks[k]] + c.blocks[k + 1..];
    }
  }

  /** Why skipping a chunk with too few free bytes in all loses nothing: no gap is larger than the
      free bytes of its chunk. */
  lemma GapWithinFree(c: Chunk, k: int)
    requires ChunkOk(c) && 0 <= k <= |c.blocks|
    ensures Gap(c, k) <= FreeBytes(c)
  {
    PrefixFits(c, k);
    SuffixFits(c, k);
    assert c.blocks == c.blocks[..k] + c.blocks[k..];
    PayloadConcat(c.blocks[..k], c.blocks[k..]);
  }

  lemma {:induction false} PayloadNonNegative(bs: seq<Block>)
    requires forall j | 0 <= j < |bs| :: bs[j].size >= 0
    ensures Payload(bs) >= 0
  {
    if bs != [] { PayloadNonNegative(bs[1..]); }
  }

  // ----- Searching -------------------------------------------------------------------------

  function Need(req: int): int { MINOR + req + ALIGNMENT + ALIGN_INFO }

  /** The first gap at or after `k` that can hold `need` bytes, or -1. */
  function FirstGap(c: Chunk, k: int, need: int): (r: int)
    requires 0 <= k <= |c.blocks|
    ensures -1 <= r <= |c.blocks|
    ensures r >= 0 ==> k <= r && Gap(c, r) >= need && forall j | k <= j < r :: Gap(c, j) < need
    ensures r == -1 ==> forall j | k <= j <= |c.blocks| :: Gap(c, j) < need
    decreases |c.blocks| - k
  {
    if Gap(c, k) >= need then k
    else if k == |c.blocks| then -1
    else FirstGap(c, k + 1, need)
  }

  ghost predicate HasRoom(c: Chunk, need: int) { FirstGap(c, 0, need) >= 0 }

  /** The first chunk at or after `i` with room for `need` bytes, or -1. */
  ghost function FirstChunk(l: Layout, i: int, need: int): (r: int)
    requires 0 <= i <= |l|
    ensures -1 <= r < |l|
    ensures r >= 0 ==> i <= r && HasRoom(l[r], need) && forall j | i <= j < r :: !HasRoom(l[j], need)
    ensures r == -1 ==> forall j | i <= j < |l| :: !HasRoom(l[j], need)
    decreases |l| - i
  {
    if i == |l| then -1
    else if HasRoom(l[i], need) then i
    else FirstChunk(l, i + 1, need)
  }

  /** The search starts at a hint, runs to the end of the list and then over the whole list. */
  ghost function Choose(l: Layout, start: int, need: int): (r: int)
    requires 0 <= start <= |l|
    ensures -1 <= r < |l|
    ensures r >= 0 ==> HasRoom(l[r], need)
    ensures r == -1 <==> forall j | 0 <= j < |l| :: !HasRoom(l[j], need)
  {
    var r := FirstChunk(l, start, need);
    if r >= 0 then r else FirstChunk(l, 0, need)
  }

  // ----- Fresh chunks ----------------------------------------------------------------------

  /** Pages asked of the page allocator for a body of `size` bytes, in 32-bit arithmetic. */
  function PagesFor(size: int): int {
    var st := (size % 0x1_0000_0000 + MAJOR + MINOR) % 0x1_0000_0000;
    var pages := if st % 0x1000 == 0 then st / 0x1000 else st / 0x1000 + 1;
    if pages < PAGE_COUNT then PAGE_COUNT else pages
  }

  /** The chunk's 32-bit size field. */
  function ChunkSize(size: int): int { PagesFor(size) * 0x1000 % 0x1_0000_0000 }

  function BodySize(req: int): int { req + ALIGNMENT + ALIGN_INFO }

  /** Requests that a fresh chunk can serve. */
  predicate Serveable(req: int) { 0 <= req && BodySize(req) + MAJOR + MINOR <= U32 - PAGE }

  /** A fresh chunk is large enough for the request that caused it exactly up to a fixed size: above
      it the 32-bit page arithmetic wraps. */
  lemma FreshChunkFitsIff(req: int)
    requires 0 <= req < U32
    ensures ChunkSize(BodySize(req)) - MAJOR >= Need(req) <==> Serveable(req)
    ensures Serveable(req) ==> ChunkSize(BodySize(req)) == PagesFor(BodySize(req)) * 0x1000
  {
    var size := BodySize(req);
    var st := (size % 0x1_0000_0000 + MAJOR + MINOR) % 0x1_0000_0000;
    if size + MAJOR + MINOR < U32 {
      assert st == size + MAJOR + MINOR;
      PagesCover(st);
    } else {
      assert st < 2 * (MAJOR + MINOR);
      assert PagesFor(size) == PAGE_COUNT;
    }
  }

  /** Main result: a fresh chunk is the smallest whole number of pages, but at least sixteen, that holds the two
      headers and the body. */
  lemma FreshChunkIsLeast(req: int)
    requires Serveable(req)
    ensures var size := ChunkSize(BodySize(req));
      && PageAligned(size) && size >= 0x10000 && size >= req + ALIGNMENT + ALIGN_INFO + MAJOR + MINOR
      && forall n: nat | 16 <= n && req + ALIGNMENT + ALIGN_INFO + MAJOR + MINOR <= n * 0x1000 :: size <= n * 0x1000
  {
    FreshChunkFitsIff(req);
  }

  lemma PagesCover(st: int)
    requires 0 <= st < U32
    ensures var pages := if st % 0x1000 == 0 then st / 0x1000 else st / 0x1000 + 1;
            var p := if pages < PAGE_COUNT then PAGE_COUNT else pages;
            && (st <= U32 - PAGE ==> st <= p * 0x1000 < U32)
            && (st > U32 - PAGE ==> p * 0x1000 == U32)
  {
  }

  /** What the page allocator may answer: null, or a page-aligned range apart from every chunk. */
  ghost predicate GrantOk(l: Layout, grant: int, size: int) {
    grant == 0 ||
    (&& 0 < grant && PageAligned(grant) && grant + size <= U64
     && forall i | 0 <= i < |l| :: Apart(l[i], Chunk(grant, size, [])))
  }

  // ----- Allocation and release ------------------------------------------------------------

  function Insert(bs: seq<Block>, k: int, b: Block): seq<Block>
    requires 0 <= k <= |bs|
  {
    bs[..k] + [b] + bs[k..]
  }

  function NewBlock(c: Chunk, k: int, req: int): Block
    requires 0 <= k <= |c.blocks|
  {
    Block(GapLo(c, k), BodySize(req), req)
  }

  function PlaceIn(c: Chunk, k: int, req: int): Chunk
    requires 0 <= k <= |c.blocks|
  {
    c.(blocks := Insert(c.blocks, k, NewBlock(c, k, req)))
  }

  function Place(l: Layout, i: int, k: int, req: int): Layout
    requires 0 <= i < |l| && 0 <= k <= |l[i].blocks|
  {
    l[i := PlaceIn(l[i], k, req)]
  }

  function FreshChunk(req: int, grant: int): Chunk {
    Chunk(grant, ChunkSize(BodySize(req)), [])
  }

  /** Where a request is placed: chunk, gap; or nowhere. */
  datatype Spot = Spot(chunk: int, gap: int) | Nowhere

  ghost function SpotFor(l: Layout, req: int, start: int, grant: int): (s: Spot)
    requires 0 <= start <= |l|
    ensures s.Spot? ==> 0 <= s.chunk <= |l|
    ensures s.Spot? && s.chunk < |l| ==>
      0 <= s.gap <= |l[s.chunk].blocks| && Gap(l[s.chunk], s.gap) >= Need(req)
    ensures s.Spot? && s.chunk == |l| ==> s.gap == 0
  {
    var i := Choose(l, start, Need(req));
    if i >= 0 then Spot(i, FirstGap(l[i], 0, Need(req)))
    else if grant == 0 then Nowhere
    else Spot(|l|, 0)
  }

  /** The layout after a request: unchanged when it cannot be served. */
  ghost function Alloc(l: Layout, req: int, start: int, grant: int): Layout
    requires 0 <= start <= |l|
  {
    match SpotFor(l, req, start, grant)
    case Nowhere => l
    case Spot(i, k) =>
      if i < |l| then Place(l, i, k, req)
      else Place(l + [FreshChunk(req, grant)], i, 0, req)
  }

  function Remove<T>(s: seq<T>, j: int): seq<T>
    requires 0 <= j < |s|
  {
    s[..j] + s[j + 1..]
  }

  function Release(l: Layout, i: int, j: int): Layout
    requires 0 <= i < |l| && 0 <= j < |l[i].blocks|
  {
    var bs := Remove(l[i].blocks, j);
    if bs == [] then Remove(l, i) else l[i := l[i].(blocks := bs)]
  }

  // ----- What every operation keeps ----------------------------------------------------------

  lemma InsertAt(bs: seq<Block>, k: int, b: Block, j: int)
    requires 0 <= k <= |bs| && 0 <= j <= |bs|
    ensures Insert(bs, k, b)[j] == if j < k then bs[j] else if j == k then b else bs[j - 1]
  {
  }

  lemma GapOrder(c: Chunk, k: int, j: int)
    requires ChunkOk(c) && 0 <= k <= |c.blocks| && 0 <= j < |c.blocks|
    ensures if j < k then End(c.blocks[j]) <= GapLo(c, k) else GapHi(c, k) <= c.blocks[j].addr
  {
  }

  lemma PlaceInBlock(c: Chunk, k: int, req: int, j: int)
    requires ChunkOk(c) && 0 <= k <= |c.blocks| && 0 <= req && Gap(c, k) >= Need(req)
    requires 0 <= j <= |c.blocks|
    ensures BlockOk(c, PlaceIn(c, k, req).blocks[j])
    ensures j < k ==> End(PlaceIn(c, k, req).blocks[j]) <= GapLo(c, k)
    ensures j > k ==> GapLo(c, k) + Need(req) <= PlaceIn(c, k, req).blocks[j].addr
  {
    InsertAt(c.blocks, k, NewBlock(c, k, req), j);
    GapInside(c, k);
    if j < k {
      GapOrder(c, k, j);
      assert BlockOk(c, c.blocks[j]);
    } else if k < j {
      GapOrder(c, k, j - 1);
      assert BlockOk(c, c.blocks[j - 1]);
    }
  }

  lemma PlaceInKeepsChunk(c: Chunk, k: int, req: int)
    requires ChunkOk(c) && 0 <= k <= |c.blocks| && 0 <= req && Gap(c, k) >= Need(req)
    ensures ChunkOk(PlaceIn(c, k, req))
  {
    var d := PlaceIn(c, k, req);
    forall j | 0 <= j < |d.blocks| ensures BlockOk(d, d.blocks[j]) {
      PlaceInBlock(c, k, req, j);
      assert BlockOk(c, d.blocks[j]);
    }
    forall i, j | 0 <= i < j < |d.blocks| ensures End(d.blocks[i]) <= d.blocks[j].addr {
      InsertAt(c.blocks, k, NewBlock(c, k, req), i);
      InsertAt(c.blocks, k, NewBlock(c, k, req), j);
      if j == k {
        PlaceInBlock(c, k, req, i);
      } else if i == k {
        PlaceInBlock(c, k, req, j);
      }
    }
  }

  lemma PlaceInUsage(c: Chunk, k: int, req: int)
    requires 0 <= k <= |c.blocks|
    ensures Usage(PlaceIn(c, k, req)) == Usage(c) + MINOR + BodySize(req)
    ensures Payload(PlaceIn(c, k, req).blocks) == Payload(c.blocks) + BodySize(req)
  {
    var b := NewBlock(c, k, req);
    assert c.blocks == c.blocks[..k] + c.blocks[k..];
    PayloadConcat(c.blocks[..k], c.blocks[k..]);
    PayloadConcat(c.blocks[..k] + [b], c.blocks[k..]);
    PayloadConcat(c.blocks[..k], [b]);
  }

  lemma GapInside(c: Chunk, k: int)
    requires ChunkOk(c) && 0 <= k <= |c.blocks|
    ensures c.base + MAJOR <= GapLo(c, k) <= GapHi(c, k) <= c.base + c.size
  {
    if k > 0 { assert BlockOk(c, c.blocks[k - 1]); }
    if k < |c.blocks| { assert BlockOk(c, c.blocks[k]); }
  }

  lemma PlaceKeepsLayout(l: Layout, i: int, k: int, req: int)
    requires LayoutOk(l) && 0 <= i < |l| && 0 <= k <= |l[i].blocks|
    requires 0 <= req && Gap(l[i], k) >= Need(req)
    ensures LayoutOk(Place(l, i, k, req))
    ensures TotalPayload(Place(l, i, k, req)) == TotalPayload(l) + BodySize(req)
    ensures TotalSize(Place(l, i, k, req)) == TotalSize(l)
    ensures BlockCount(Place(l, i, k, req)) == BlockCount(l) + 1
  {
    PlaceInKeepsChunk(l[i], k, req);
    PlaceInUsage(l[i], k, req);
    var m := Place(l, i, k, req);
    forall a, b | 0 <= a < b < |m| ensures Apart(m[a], m[b]) {
      assert Apart(l[a], l[b]);
    }
    TotalsAt(l, i);
    TotalsAt(m, i);
    assert m[..i] == l[..i] && m[i + 1..] == l[i + 1..];
  }

  lemma FreshKeepsLayout(l: Layout, req: int, grant: int)
    requires LayoutOk(l) && Serveable(req) && grant != 0
    requires GrantOk(l, grant, ChunkSize(BodySize(req)))
    ensures LayoutOk(l + [FreshChunk(req, grant)])
    ensures Gap(FreshChunk(req, grant), 0) >= Need(req)
    ensures TotalPayload(l + [FreshChunk(req, grant)]) == TotalPayload(l)
    ensures TotalSize(l + [FreshChunk(req, grant)]) == TotalSize(l) + ChunkSize(BodySize(req))
    ensures BlockCount(l + [FreshChunk(req, grant)]) == BlockCount(l)
  {
    FreshChunkFitsIff(req);
    var c := FreshChunk(req, grant);
    var m := l + [c];
    assert ChunkOk(c);
    forall a, b | 0 <= a < b < |m| ensures Apart(m[a], m[b]) {
      if b < |l| { assert Apart(l[a], l[b]); }
    }
    TotalsConcat(l, [c]);
  }

  lemma AllocKeepsLayout(l: Layout, req: int, start: int, grant: int)
    requires LayoutOk(l) && NoEmptyChunk(l) && Serveable(req) && 0 <= start <= |l|
    requires GrantOk(l, grant, ChunkSize(BodySize(req)))
    ensures LayoutOk(Alloc(l, req, start, grant))
    ensures NoEmptyChunk(Alloc(l, req, start, grant))
  {
    match SpotFor(l, req, start, grant)
    case Nowhere =>
    case Spot(i, k) =>
      if i < |l| {
        PlaceKeepsLayout(l, i, k, req);
      } else {
        FreshKeepsLayout(l, req, grant);
        PlaceKeepsLayout(l + [FreshChunk(req, grant)], i, 0, req);
      }
  }

  lemma RemoveUsage(bs: seq<Block>, j: int)
    requires 0 <= j < |bs|
    ensures Payload(Remove(bs, j)) == Payload(bs) - bs[j].size
  {
    assert bs == bs[..j] + bs[j..];
    PayloadConcat(bs[..j], bs[j..]);
    assert bs[j..][1..] == bs[j + 1..];
    PayloadConcat(bs[..j], bs[j + 1..]);
  }

  lemma RemoveKeepsChunk(c: Chunk, j: int)
    requires ChunkOk(c) && 0 <= j < |c.blocks|
    ensures ChunkOk(c.(blocks := Remove(c.blocks, j)))
  {
    var bs := c.blocks;
    var d := c.(blocks := Remove(bs, j));
    forall k | 0 <= k < |d.blocks| ensures BlockOk(d, d.blocks[k]) {
      assert d.blocks[k] == if k < j then bs[k] else bs[k + 1];
      assert BlockOk(c, d.blocks[k]);
    }
    forall i, k | 0 <= i < k < |d.blocks| ensures End(d.blocks[i]) <= d.blocks[k].addr {
      assert d.blocks[i] == if i < j then bs[i] else bs[i + 1];
      assert d.blocks[k] == if k < j then bs[k] else bs[k + 1];
    }
  }

  lemma ReleaseKeepsLayout(l: Layout, i: int, j: int)
    requires LayoutOk(l) && NoEmptyChunk(l) && 0 <= i < |l| && 0 <= j < |l[i].blocks|
    ensures LayoutOk(Release(l, i, j)) && NoEmptyChunk(Release(l, i, j))
  {
    var m := Release(l, i, j);
    RemoveKeepsChunk(l[i], j);
    if |l[i].blocks| == 1 {
      forall a | 0 <= a < |m| ensures ChunkOk(m[a]) && |m[a].blocks| > 0 {
        assert m[a] == if a < i then l[a] else l[a + 1];
      }
      forall a, b | 0 <= a < b < |m| ensures Apart(m[a], m[b]) {
        assert m[a] == if a < i then l[a] else l[a + 1];
        assert m[b] == if b < i then l[b] else l[b + 1];
      }
    } else {
      forall a, b | 0 <= a < b < |m| ensures Apart(m[a], m[b]) {
        assert Apart(l[a], l[b]);
      }
    }
  }

  lemma ReleaseTotals(l: Layout, i: int, j: int)
    requires LayoutOk(l) && 0 <= i < |l| && 0 <= j < |l[i].blocks|
    ensures TotalPayload(Release(l, i, j)) == TotalPayload(l) - l[i].blocks[j].size
    ensures TotalSize(Release(l, i, j)) == TotalSize(l) - (if |l[i].blocks| == 1 then l[i].size else 0)
    ensures BlockCount(Release(l, i, j)) == BlockCount(l) - 1
  {
    var m := Release(l, i, j);
    RemoveUsage(l[i].blocks, j);
    TotalsAt(l, i);
    if |l[i].blocks| == 1 {
      assert m == l[..i] + l[i + 1..];
      TotalsConcat(l[..i], l[i + 1..]);
      assert Remove(l[i].blocks, j) == [];
    } else {
      TotalsAt(m, i);
      assert m[..i] == l[..i] && m[i + 1..] == l[i + 1..];
    }
  }

  // ----- Main results ------------------------------------------------------------------------

  /** A request fails exactly when no gap of any chunk can hold it and the page allocator says no;
      a fresh chunk is taken exactly when no gap can hold it and the page allocator grants one. */
  lemma AllocIsComplete(l: Layout, req: int, start: int, grant: int)
    requires 0 <= start <= |l|
    ensures var full := forall i, k | 0 <= i < |l| && 0 <= k <= |l[i].blocks| :: Gap(l[i], k) < Need(req);
            && (SpotFor(l, req, start, grant).Nowhere? <==> full && grant == 0)
            && (SpotFor(l, req, start, grant) == Spot(|l|, 0) <==> full && grant != 0)
  {
    if forall i | 0 <= i < |l| :: !HasRoom(l[i], Need(req)) {
      forall i, k | 0 <= i < |l| && 0 <= k <= |l[i].blocks| ensures Gap(l[i], k) < Need(req) {
        assert !HasRoom(l[i], Need(req));
      }
    } else {
      var i :| 0 <= i < |l| && HasRoom(l[i], Need(req));
      var k := FirstGap(l[i], 0, Need(req));
      assert Gap(l[i], k) >= Need(req);
    }
  }

  /** Releasing what a request placed gives back the layout there was before, chunk by chunk. */
  lemma ReleaseUndoesAlloc(l: Layout, req: int, start: int, grant: int)
    requires NoEmptyChunk(l) && 0 <= start <= |l|
    requires SpotFor(l, req, start, grant).Spot?
    ensures var s := SpotFor(l, req, start, grant);
            var m := Alloc(l, req, start, grant);
            && s.chunk < |m| && s.gap < |m[s.chunk].blocks|
            && Release(m, s.chunk, s.gap) == l
  {
    var s := SpotFor(l, req, start, grant);
    var m := Alloc(l, req, start, grant);
    var i, k := s.chunk, s.gap;
    if i < |l| {
      var b := NewBlock(l[i], k, req);
      assert m[i].blocks == l[i].blocks[..k] + [b] + l[i].blocks[k..];
      assert Remove(m[i].blocks, k) == l[i].blocks;
      assert Release(m, i, k) == l;
    } else {
      assert m[..i] == l;
      assert Remove(m, i) == l;
    }
  }

  /** What the placed block says, and how the size of its chunk counts. */
  lemma AllocBlock(l: Layout, req: int, start: int, grant: int)
    requires 0 <= start <= |l| && SpotFor(l, req, start, grant).Spot?
    ensures var s := SpotFor(l, req, start, grant);
            var m := Alloc(l, req, start, grant);
            && s.chunk < |m| && s.gap < |m[s.chunk].blocks|
            && m[s.chunk].blocks[s.gap].req == req && m[s.chunk].blocks[s.gap].size == BodySize(req)
            && (s.chunk == |l| ==> |m[s.chunk].blocks| == 1 && m[s.chunk].size == ChunkSize(BodySize(req)))
            && (s.chunk < |l| ==> |m[s.chunk].blocks| == |l[s.chunk].blocks| + 1)
  {
  }

  /** What a request that is served adds: its body, one block, and a chunk if one was taken for it. */
  lemma AllocTotals(l: Layout, req: int, start: int, grant: int)
    requires LayoutOk(l) && NoEmptyChunk(l) && Serveable(req) && 0 <= start <= |l|
    requires GrantOk(l, grant, ChunkSize(BodySize(req))) && SpotFor(l, req, start, grant).Spot?
    ensures var m := Alloc(l, req, start, grant);
            && TotalPayload(m) == TotalPayload(l) + BodySize(req)
            && BlockCount(m) == BlockCount(l) + 1
            && var added := if SpotFor(l, req, start, grant).chunk == |l| then ChunkSize(BodySize(req)) else 0;
               TotalSize(m) == TotalSize(l) + added
  {
    var s, m := SpotFor(l, req, start, grant), Alloc(l, req, start, grant);
    AllocKeepsLayout(l, req, start, grant);
    AllocBlock(l, req, start, grant);
    ReleaseUndoesAlloc(l, req, start, grant);
    if s.chunk < |l| { assert |l[s.chunk].blocks| > 0; }
    ReleaseTotals(m, s.chunk, s.gap);
  }

  /** A run: requests with any search hint and any answer of the page allocator, and releases. */
  datatype Op = Request(req: int, start: int, grant: int) | Drop(chunk: int, block: int)

  ghost predicate Legal(l: Layout, op: Op) {
    match op
    case Request(req, start, grant) =>
      Serveable(req) && 0 <= start <= |l| && GrantOk(l, grant, ChunkSize(BodySize(req)))
    case Drop(i, j) => 0 <= i < |l| && 0 <= j < |l[i].blocks|
  }

  ghost function Step(l: Layout, op: Op): Layout
    requires Legal(l, op)
  {
    match op
    case Request(req, start, grant) => Alloc(l, req, start, grant)
    case Drop(i, j) => Release(l, i, j)
  }

  /** `ls` are the layouts a run passes through, one before and one after each operation. */
  ghost predicate IsRun(ls: seq<Layout>, ops: seq<Op>) {
    && |ls| == |ops| + 1 && ls[0] == []
    && forall n | 0 <= n < |ops| :: Legal(ls[n], ops[n]) && ls[n + 1] == Step(ls[n], ops[n])
  }

  lemma {:induction false} RunKeepsLayout(ls: seq<Layout>, ops: seq<Op>, n: nat)
    requires IsRun(ls, ops) && n < |ls|
    ensures LayoutOk(ls[n]) && NoEmptyChunk(ls[n])
    decreases n
  {
    if n > 0 {
      RunKeepsLayout(ls, ops, n - 1);
      assert ls[n - 1 + 1] == Step(ls[n - 1], ops[n - 1]);
      match ops[n - 1]
      case Request(req, start, grant) => AllocKeepsLayout(ls[n - 1], req, start, grant);
      case Drop(i, j) => ReleaseKeepsLayout(ls[n - 1], i, j);
    }
  }

  lemma NoBlocksNoChunks(l: Layout)
    requires NoEmptyChunk(l)
    ensures BlockCount(l) == 0 <==> l == []
  {
  }

  /** Any run of releases, as long as the number of blocks, ends with no chunk at all and every total
      at zero. */
  lemma {:induction false} DroppingAllEmpties(ls: seq<Layout>, drops: seq<Op>)
    requires |ls| == |drops| + 1 && LayoutOk(ls[0]) && NoEmptyChunk(ls[0])
    requires forall n | 0 <= n < |drops| ::
               drops[n].Drop? && Legal(ls[n], drops[n]) && ls[n + 1] == Step(ls[n], drops[n])
    requires |drops| == BlockCount(ls[0])
    ensures ls[|drops|] == []
    decreases |drops|
  {
    if drops == [] {
      NoBlocksNoChunks(ls[0]);
    } else {
      assert ls[0 + 1] == Step(ls[0], drops[0]);
      ReleaseKeepsLayout(ls[0], drops[0].chunk, drops[0].block);
      ReleaseTotals(ls[0], drops[0].chunk, drops[0].block);
      forall n | 0 <= n < |drops[1..]|
        ensures drops[1..][n].Drop? && Legal(ls[1..][n], drops[1..][n])
        ensures ls[1..][n + 1] == Step(ls[1..][n], drops[1..][n])
      {
        assert drops[1..][n] == drops[n + 1] && ls[1..][n] == ls[n + 1];
      }
      DroppingAllEmpties(ls[1..], drops[1..]);
    }
  }

  // ----- Alignment ---------------------------------------------------------------------------

  /** The address the ALIGN macro turns a body's start into. */
  function AlignUp(p: int): int {
    var q := p + ALIGN_INFO;
    var diff := q % 16;
    if diff != 0 then q + (ALIGNMENT - diff) else q
  }

  /** The byte the ALIGN macro leaves 16 bytes before the aligned address. */
  function AlignByte(p: int): int { AlignUp(p) - p }

  /** The UNALIGN macro, given the byte it reads. */
  function Unalign(p: int, byte: int): int {
    if byte < ALIGNMENT + ALIGN_INFO then p - byte else p
  }

  function UserPtr(b: Block): int { AlignUp(b.addr + MINOR) }

  lemma UnalignUndoesAlign(p: int)
    ensures Unalign(AlignUp(p), AlignByte(p)) == p
    ensures AlignUp(p) % 16 == 0
    ensures ALIGN_INFO <= AlignByte(p) < ALIGNMENT + ALIGN_INFO
  {
  }

  datatype Range = Range(lo: int, hi: int)

  ghost predicate Disjoint(r: Range, s: Range) { r.hi <= s.lo || s.hi <= r.lo }

  function UserRange(b: Block): Range { Range(UserPtr(b), UserPtr(b) + b.req) }

  function HeaderRange(b: Block): Range { Range(b.addr, b.addr + MINOR) }

  function MarkRange(b: Block): Range { Range(UserPtr(b) - ALIGN_INFO, UserPtr(b) - ALIGN_INFO + 1) }

  function MajorRange(c: Chunk): Range { Range(c.base, c.base + MAJOR) }

  /** In a sound layout the region handed to a caller is aligned, holds the requested bytes, lies in
      its chunk, and meets no chunk header, no block header, no alignment byte and no other
      caller's region. */
  lemma RegionsAreSafe(l: Layout, i: int, j: int, i': int, j': int)
    requires LayoutOk(l)
    requires 0 <= i < |l| && 0 <= j < |l[i].blocks|
    requires 0 <= i' < |l| && 0 <= j' < |l[i'].blocks|
    ensures var b, b' := l[i].blocks[j], l[i'].blocks[j'];
            && UserPtr(b) % 16 == 0
            && l[i].base < UserRange(b).lo <= UserRange(b).hi <= l[i].base + l[i].size
            && Disjoint(UserRange(b), MajorRange(l[i']))
            && Disjoint(UserRange(b), HeaderRange(b'))
            && Disjoint(UserRange(b), MarkRange(b'))
            && Disjoint(HeaderRange(b), MajorRange(l[i']))
            && Disjoint(MarkRange(b), MajorRange(l[i']))
            && Disjoint(MarkRange(b), HeaderRange(b'))
            && ((i, j) != (i', j') ==> && Disjoint(UserRange(b), UserRange(b'))
                                       && Disjoint(HeaderRange(b), HeaderRange(b'))
                                       && Disjoint(MarkRange(b), MarkRange(b')))
  {
    var b, b' := l[i].blocks[j], l[i'].blocks[j'];
    UnalignUndoesAlign(b.addr + MINOR);
    UnalignUndoesAlign(b'.addr + MINOR);
    assert BlockOk(l[i], b) && BlockOk(l[i'], b');
    BlocksApart(l, i, j, i', j');
  }

  lemma BlocksApart(l: Layout, i: int, j: int, i': int, j': int)
    requires LayoutOk(l)
    requires 0 <= i < |l| && 0 <= j < |l[i].blocks|
    requires 0 <= i' < |l| && 0 <= j' < |l[i'].blocks|
    ensures var b, b' := l[i].blocks[j], l[i'].blocks[j'];
            (i, j) == (i', j') || End(b) <= b'.addr || End(b') <= b.addr
    ensures i != i' ==> Apart(l[i], l[i'])
  {
    assert BlockOk(l[i], l[i].blocks[j]) && BlockOk(l[i'], l[i'].blocks[j']);
    if i < i' {
      assert Apart(l[i], l[i']);
    } else if i' < i {
      assert Apart(l[i'], l[i]);
    }
  }
}
