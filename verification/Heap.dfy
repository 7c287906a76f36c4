/**
  The heap allocator itself: chunk headers in a doubly linked list, block headers in a doubly linked
  list per chunk, alignment bytes in front of the caller's region, and the search that `malloc`
  makes over them. Headers and bytes live at addresses; a null pointer is 0.

  The ghost field `layout` is what the headers mean. `Linked()` ties every header field, every
  alignment byte and every counter to it.
 */
module Heap {
  import opened Common
  import opened HeapLayout
  import opened HeapCells
  import opened HeapSearch

  ghost predicate At(l: Layout, i: int, j: int, ptr: int) {
    0 <= i < |l| && 0 <= j < |l[i].blocks| && UserPtr(l[i].blocks[j]) == ptr
  }

  lemma BlockSound(l: Layout, i: int, j: int)
    requires LayoutOk(l) && 0 <= i < |l| && 0 <= j < |l[i].blocks|
    ensures BlockOk(l[i], l[i].blocks[j]) && 0 <= l[i].blocks[j].size
  {
    assert ChunkOk(l[i]);
  }

  /** A chunk's header tells its free bytes. */
  lemma FreeOf(s: State, l: Layout, i: int)
    requires LinkedTo(s, l) && 0 <= i < |l|
    ensures l[i].base in s.majors && s.majors[l[i].base].size - s.majors[l[i].base].usage == FreeBytes(l[i])
  {
    assert MajorIs(l, s.majors, i);
  }

  /** A chunk's header leads to the next, and the root to the first. */
  lemma HeaderOf(s: State, l: Layout, i: int)
    requires LinkedTo(s, l) && 0 <= i < |l|
    ensures l[i].base in s.majors && s.memRoot == l[0].base
    ensures s.majors[l[i].base].next == if i + 1 < |l| then l[i + 1].base else 0
    ensures i + 1 < |l| ==> l[i + 1].base != 0
  {
    assert MajorIs(l, s.majors, i);
    if i + 1 < |l| { assert ChunkOk(l[i + 1]); }
  }

  /** A caller's pointer belongs to one block only. */
  lemma AtIsUnique(l: Layout, i: int, j: int, i': int, j': int, ptr: int)
    requires LayoutOk(l) && At(l, i, j, ptr) && At(l, i', j', ptr)
    ensures i == i' && j == j'
  {
    BlocksApart(l, i, j, i', j');
    BlockSound(l, i, j);
    BlockSound(l, i', j');
    UnalignUndoesAlign(l[i].blocks[j].addr + MINOR);
    UnalignUndoesAlign(l[i'].blocks[j'].addr + MINOR);
  }

  lemma OnlyThere(l: Layout, i: int, j: int, ptr: int)
    requires LayoutOk(l) && At(l, i, j, ptr)
    ensures forall i', j' | At(l, i', j', ptr) :: i' == i && j' == j
  {
    forall i', j' | At(l, i', j', ptr) ensures i' == i && j' == j {
      AtIsUnique(l, i, j, i', j', ptr);
    }
  }

  lemma LiveHeader(s: State, l: Layout, i: int, j: int, ptr: int)
    requires LinkedTo(s, l) && At(l, i, j, ptr)
    ensures ptr - ALIGN_INFO in s.marks
    ensures var h := Unalign(ptr, s.marks[ptr - ALIGN_INFO]) - MINOR;
            h == l[i].blocks[j].addr && h in s.minors && s.minors[h].magic == Marker
  {
    assert MinorIs(l[i], s.minors, j) && MarkIs(l[i], s.marks, j);
    UnalignUndoesAlign(l[i].blocks[j].addr + MINOR);
  }

  lemma NullIsNobodys(l: Layout)
    requires LayoutOk(l)
    ensures forall i, j :: !At(l, i, j, 0)
  {
    forall i, j | 0 <= i < |l| && 0 <= j < |l[i].blocks| ensures UserPtr(l[i].blocks[j]) > 0 {
      BlockSound(l, i, j);
      UnalignUndoesAlign(l[i].blocks[j].addr + MINOR);
    }
  }

  /** Every live header and alignment byte is determined by the layout: a layout restored is a heap
      restored. */
  lemma LayoutFixesHeaders(s: State, s': State, l: Layout, i: int, j: int)
    requires LinkedTo(s, l) && LinkedTo(s', l) && 0 <= i < |l| && 0 <= j < |l[i].blocks|
    ensures s.memRoot == s'.memRoot && s.inuse == s'.inuse && s.totalSize == s'.totalSize
    ensures l[i].base in s.majors && l[i].base in s'.majors && s.majors[l[i].base] == s'.majors[l[i].base]
    ensures var b := l[i].blocks[j];
            && b.addr in s.minors && b.addr in s'.minors && s.minors[b.addr] == s'.minors[b.addr]
            && MarkAddr(b) in s.marks && MarkAddr(b) in s'.marks && s.marks[MarkAddr(b)] == s'.marks[MarkAddr(b)]
  {
    assert MajorIs(l, s.majors, i) && MajorIs(l, s'.majors, i);
    assert MinorIs(l[i], s.minors, j) && MinorIs(l[i], s'.minors, j);
    assert MarkIs(l[i], s.marks, j) && MarkIs(l[i], s'.marks, j);
  }

  /** `ptr` still has a readable alignment byte and block header, and the header is marked dead. */
  ghost predicate Stale(s: State, ptr: int) {
    && ptr - ALIGN_INFO in s.marks
    && var h := Unalign(ptr, s.marks[ptr - ALIGN_INFO]) - MINOR;
       h in s.minors && s.minors[h].magic == Dead
  }

  /** The chunk remembered after a block of chunk `i` was released and the chunk stayed; `l` is the
      layout after the release. */
  ghost function BetAfterRelease(l: Layout, i: int, bet: int): int
    requires 0 <= i < |l| && BetOk(l, bet)
  {
    if bet != 0 && Int32(FreeBytes(l[i])) > Int32(FreeBytes(l[IndexOf(l, bet)])) then l[i].base else bet
  }

  /** Main result: of the two chunks the freer is remembered if and only if their free bytes are both below 2 GiB
      or both not; the code compares them as signed numbers. */
  lemma FreerRememberedIff(l: Layout, i: int, b: int, bet: int)
    requires LayoutOk(l) && 0 <= i < |l| && 0 <= b < |l| && bet != 0 && l[b].base == bet
    ensures BetOk(l, bet)
    ensures BetAfterRelease(l, i, bet) == (if FreeBytes(l[i]) > FreeBytes(l[b]) then l[i].base else bet) <==>
      (FreeBytes(l[i]) < 0x8000_0000 <==> FreeBytes(l[b]) < 0x8000_0000)
  {
    OnlyBase(l, b, IndexOf(l, bet));
    FreeRange(l[i]);
    FreeRange(l[b]);
    if i != b { BasesDiffer(l, i, b); }
  }

  lemma FreeRange(c: Chunk)
    requires ChunkOk(c)
    ensures 0 <= FreeBytes(c) < 0x1_0000_0000
  {
    GapWithinFree(c, |c.blocks|);
    GapInside(c, |c.blocks|);
    PayloadPositive(c, |c.blocks|);
  }

  lemma {:induction false} PayloadPositive(c: Chunk, n: nat)
    requires ChunkOk(c) && n <= |c.blocks|
    ensures Payload(c.blocks[..n]) >= 0 && c.blocks[..|c.blocks|] == c.blocks
    decreases n
  {
    if n > 0 {
      PayloadPositive(c, n - 1);
      assert c.blocks[..n] == c.blocks[..n - 1] + [c.blocks[n - 1]];
      PayloadConcat(c.blocks[..n - 1], [c.blocks[n - 1]]);
      assert BlockOk(c, c.blocks[n - 1]);
    }
  }

  /** What free promises for a pointer that is block `j` of chunk `i`: `s` and `l'` are the state and the
      layout after it. */
  ghost predicate Released(l: Layout, i: int, j: int, bet: int, ptr: int, s: State, l': Layout) {
    && At(l, i, j, ptr)
    && l' == Release(l, i, j)
    && (if |l[i].blocks| == 1 then s.bestBet == if bet == l[i].base then 0 else bet
        else i < |l'| && BetOk(l', bet) && s.bestBet == BetAfterRelease(l', i, bet) && Stale(s, ptr))
  }

  /** The ALIGN macro: the aligned address, and the bytes with the distance stored in front of it. */
  method Align(marks: map<int, int>, p: int) returns (q: int, marks': map<int, int>)
    ensures q == AlignUp(p)
    ensures marks' == marks[q - ALIGN_INFO := AlignByte(p)]
  {
    q := p + ALIGN_INFO;
    var diff := q % 16;
    if diff != 0 {
      diff := ALIGNMENT - diff;
      q := q + diff;
    }
    marks' := marks[q - ALIGN_INFO := diff + ALIGN_INFO];
  }

  /** Each round but the last takes the search forward: a restart, a fresh chunk, or the next chunk. */
  ghost predicate Moved(c: Cursor, c': Cursor) {
    || (c.startedBet && !c'.startedBet && !c'.asked)
    || (c'.asked && c'.startedBet == c.startedBet)
    || (c'.startedBet == c.startedBet && c'.asked == c.asked && c'.i > c.i)
  }

  /** The search is about to look at the chunk at `maj`. */
  ghost predicate Looking(q: Asking, bet: int, m: Layout, c: Cursor, maj: int, startedBet: bool, best: int,
                          asked: bool)
  {
    && Searching(q, bet, m, c) && !c.looked && (asked ==> q.DueLook())
    && c.maj == maj && c.startedBet == startedBet && c.best == best && c.asked == asked
  }

  lemma FreshHasRoom(q: Asking)
    requires q.Ok() && q.grant != 0
    ensures FreeBytes(FreshChunk(q.req, q.grant)) >= Need(q.req)
  {
    FreshKeepsLayout(q.l, q.req, q.grant);
  }

  lemma RootIsNull(s: State, l: Layout)
    requires LinkedTo(s, l)
    ensures s.memRoot == 0 <==> l == []
    ensures l == [] ==> s.bestBet == 0
  {
    if l != [] { assert ChunkOk(l[0]); }
  }

  /** The bytes of a new block at `h` with its alignment byte written, and the caller's pointer. */
  method MarkBlock(marks: map<int, int>, h: int, req: int) returns (p: int, bytes: map<int, int>)
    requires 0 <= req
    ensures p == AlignUp(h + MINOR) && Marked(marks, bytes, h, req)
  {
    MarkSplice(marks, h, req);
    p, bytes := Align(Wipe(marks, 1, h, h + MINOR + BodySize(req)), h + MINOR);
  }

  method LinkFirst(minors: map<int, Minor>, maj: int, req: int, ghost c: Chunk) returns (cells: map<int, Minor>)
    requires c.base == maj && c.blocks == [] && 0 <= req
    ensures Spliced(minors, cells, c, 0, req)
  {
    var first, size := maj + MAJOR, BodySize(req);
    cells := Wipe(minors, MINOR, first, first + MINOR + size);
    cells := cells[first := Minor(Marker, size, req, 0, 0, maj)];
    SpliceEmpty(minors, c, req);
  }

  method LinkFront(minors: map<int, Minor>, maj: int, second: int, req: int, ghost c: Chunk)
    returns (cells: map<int, Minor>)
    requires c.base == maj && c.blocks != [] && second == c.blocks[0].addr && second in minors
    requires 0 <= req && c.base + MAJOR + Need(req) <= second
    ensures Spliced(minors, cells, c, 0, req)
  {
    var first, size := maj + MAJOR, BodySize(req);
    cells := Wipe(minors, MINOR, first, first + MINOR + size);
    cells := cells[second := cells[second].(prev := first)];
    cells := cells[first := Minor(Marker, size, req, 0, second, maj)];
    SpliceFront(minors, c, req);
  }

  method LinkLast(minors: map<int, Minor>, maj: int, min: int, next: int, req: int, ghost c: Chunk)
    returns (cells: map<int, Minor>)
    requires c.base == maj && c.blocks != [] && 0 <= req
    requires var b := c.blocks[|c.blocks| - 1]; min == b.addr && b.addr in minors && 0 <= b.size && next == End(b)
    ensures Spliced(minors, cells, c, |c.blocks|, req)
  {
    var size := BodySize(req);
    cells := Wipe(minors, MINOR, next, next + MINOR + size);
    cells := cells[min := cells[min].(next := next)];
    cells := cells[next := Minor(Marker, size, req, min, 0, maj)];
    SpliceLast(minors, c, req);
  }

  method LinkBetween(minors: map<int, Minor>, maj: int, min: int, newMin: int, next: int, req: int, ghost c: Chunk,
                     ghost k: int)
    returns (cells: map<int, Minor>)
    requires c.base == maj && 0 < k < |c.blocks| && 0 <= req
    requires var b := c.blocks[k - 1]; min == b.addr && min in minors && 0 <= b.size && newMin == End(b)
    requires next == c.blocks[k].addr && next in minors && newMin + Need(req) <= next
    ensures Spliced(minors, cells, c, k, req)
  {
    var size := BodySize(req);
    cells := Wipe(minors, MINOR, newMin, newMin + MINOR + size);
    cells := cells[newMin := Minor(Marker, size, req, min, next, maj)];
    cells := cells[next := cells[next].(prev := newMin)];
    cells := cells[min := cells[min].(next := newMin)];
    SpliceBetween(minors, c, k, req);
  }

  /** Marks the block header at `min` dead and joins its neighbours. */
  method JoinMinors(minors: map<int, Minor>, min: int, ghost c: Chunk, ghost j: int) returns (cells: map<int, Minor>)
    requires ChunkOk(c) && 0 <= j < |c.blocks| && MinorsMatch(c, minors) && min == c.blocks[j].addr
    ensures Unlinked(minors, cells, c, j)
  {
    assert MinorIs(c, minors, j);
    UnlinkSplice(minors, c, j);
    var prev, next := minors[min].prev, minors[min].next;
    cells := minors[min := minors[min].(magic := Dead)];
    if next != 0 { cells := cells[next := cells[next].(prev := prev)]; }
    if prev != 0 { cells := cells[prev := cells[prev].(next := next)]; }
  }

  /** Joins the neighbours of the chunk header at `maj`, and removes it. */
  method JoinMajors(majors: map<int, Major>, maj: int, ghost l: Layout, ghost i: int) returns (headers: map<int, Major>)
    requires LayoutOk(l) && 0 <= i < |l| && MajorsMatch(l, majors) && maj == l[i].base
    ensures Dropped(majors, headers, l, i)
  {
    assert MajorIs(l, majors, i);
    DropSplice(majors, l, i);
    var prev, next := majors[maj].prev, majors[maj].next;
    headers := majors;
    if prev != 0 { headers := headers[prev := headers[prev].(next := next)]; }
    if next != 0 { headers := headers[next := headers[next].(prev := prev)]; }
    headers := headers - {maj};
  }

  /** The cells stand for the layout `l`. */
  ghost predicate Stands(s: State, l: Layout, layout: Layout) { l == layout && LinkedTo(s, l) }

  /** Pages handed back to the page allocator. */
  datatype Pages = Pages(addr: int, count: int)

  /** What releasing a block of a chunk hands back: the whole chunk with its last block, otherwise nothing. */
  function HandedBack(c: Chunk): seq<Pages> {
    if |c.blocks| == 1 then [Pages(c.base, c.size / 0x1000)] else []
  }

  class Allocator {
    var majors: map<int, Major>
    var minors: map<int, Minor>
    var marks: map<int, int>
    var memRoot: int
    var bestBet: int
    var totalSize: int
    var inuse: int
    ghost var layout: Layout
    ghost var returned: seq<Pages>

    function Snapshot(): State
      reads this
    {
      State(majors, minors, marks, memRoot, bestBet, totalSize, inuse)
    }

    ghost predicate Linked()
      reads this
    {
      exists l :: Stands(Snapshot(), l, layout)
    }

    ghost predicate Valid()
      reads this
    {
      Linked() && NoEmptyChunk(layout)
    }

    constructor ()
      ensures Valid() && layout == [] && returned == []
    {
      majors, minors, marks := map[], map[], map[];
      memRoot, bestBet, totalSize, inuse := 0, 0, 0, 0;
      layout, returned := [], [];
      new;
      assert Stands(Snapshot(), layout, layout);
    }

    method Store(s: State)
      modifies this`majors, this`minors, this`marks, this`memRoot, this`bestBet, this`totalSize, this`inuse
      ensures Snapshot() == s
    {
      majors, minors, marks := s.majors, s.minors, s.marks;
      memRoot, bestBet, totalSize, inuse := s.memRoot, s.bestBet, s.totalSize, s.inuse;
    }

    method StoreCells(s: State)
      requires s.memRoot == memRoot && s.bestBet == bestBet && s.totalSize == totalSize
      modifies this`majors, this`minors, this`marks, this`inuse
      ensures Snapshot() == s
    {
      majors, minors, marks, inuse := s.majors, s.minors, s.marks, s.inuse;
    }

    method AllocNewPage(size: int, grant: int) returns (maj: int)
      modifies this`majors, this`totalSize
      ensures maj == grant
      ensures grant == 0 ==> majors == old(majors) && totalSize == old(totalSize)
      ensures grant != 0 ==>
        && majors == old(majors)[grant := Major(PagesFor(size), ChunkSize(size), MAJOR, 0, 0, 0)]
        && totalSize == Wrapped(old(totalSize) + ChunkSize(size))
    {
      var st := (size % 0x1_0000_0000 + MAJOR + MINOR) % 0x1_0000_0000;
      if st % 0x1000 == 0 {
        st := st / 0x1000;
      } else {
        st := st / 0x1000 + 1;
      }
      if st < PAGE_COUNT { st := PAGE_COUNT; }
      maj := grant;
      if maj == 0 { return; }
      majors := majors[maj := Major(st, st * 0x1000 % 0x1_0000_0000, MAJOR, 0, 0, 0)];
      totalSize := Wrapped(totalSize + majors[maj].size);
    }

    /** Writes back a chunk header, the block headers and the alignment bytes of a placed block. */
    method Commit(maj: int, header: Major, cells: map<int, Minor>, bytes: map<int, int>, req: int, ghost i: int,
                  ghost k: int)
      requires Linked() && 0 <= i < |layout| && layout[i].base == maj && 0 <= k <= |layout[i].blocks|
      requires 0 <= req && Gap(layout[i], k) >= Need(req)
      requires MajorIs(layout, majors, i)
      requires header == majors[maj].(usage := majors[maj].usage + BodySize(req) + MINOR,
                                      first := if k == 0 then GapLo(layout[i], 0) else majors[maj].first)
      requires Spliced(minors, cells, layout[i], k, req) && Marked(marks, bytes, GapLo(layout[i], k), req)
      modifies this`majors, this`minors, this`marks, this`inuse, this`layout
      ensures Linked() && layout == Place(old(layout), i, k, req)
    {
      var s := Snapshot();
      var after := s.(majors := majors[maj := header], minors := cells, marks := bytes,
        inuse := Wrapped(inuse + BodySize(req)));
      PlacedLinked(s, after, layout, i, k, req);
      StoreCells(after);
      layout := Place(layout, i, k, req);
      assert Stands(Snapshot(), layout, layout);
    }

    /** The same with the alignment byte, and the caller's pointer. */
    method Insert(maj: int, at: int, header: Major, cells: map<int, Minor>, req: int, ghost i: int, ghost k: int)
      returns (p: int)
      requires Linked() && 0 <= i < |layout| && layout[i].base == maj && 0 <= k <= |layout[i].blocks|
      requires 0 <= req && Gap(layout[i], k) >= Need(req) && at == GapLo(layout[i], k)
      requires MajorIs(layout, majors, i)
      requires header == majors[maj].(usage := majors[maj].usage + BodySize(req) + MINOR,
                                      first := if k == 0 then GapLo(layout[i], 0) else majors[maj].first)
      requires Spliced(minors, cells, layout[i], k, req)
      modifies this`majors, this`minors, this`marks, this`inuse, this`layout
      ensures Linked() && layout == Place(old(layout), i, k, req)
      ensures p == UserPtr(NewBlock(old(layout)[i], k, req))
    {
      var bytes;
      p, bytes := MarkBlock(marks, at, req);
      Commit(maj, header, cells, bytes, req, i, k);
    }

    /** CASE 2: a chunk without blocks. */
    method PlaceFirst(maj: int, req: int, ghost i: int) returns (p: int)
      requires Linked() && 0 <= i < |layout| && layout[i].base == maj && layout[i].blocks == []
      requires 0 <= req && Gap(layout[i], 0) >= Need(req)
      modifies this`majors, this`minors, this`marks, this`inuse, this`layout
      ensures Linked() && layout == Place(old(layout), i, 0, req)
      ensures p == UserPtr(NewBlock(old(layout)[i], 0, req))
    {
      ghost var l := layout;
      assert MajorIs(l, majors, i);
      var size, first := BodySize(req), maj + MAJOR;
      var cells := LinkFirst(minors, maj, req, l[i]);
      var header := majors[maj].(first := first, usage := majors[maj].usage + size + MINOR);
      p := Insert(maj, first, header, cells, req, i, 0);
    }

    /** CASE 3: room in front of the first block. */
    method PlaceFront(maj: int, req: int, ghost i: int) returns (p: int)
      requires Linked() && 0 <= i < |layout| && layout[i].base == maj && layout[i].blocks != []
      requires 0 <= req && Gap(layout[i], 0) >= Need(req)
      modifies this`majors, this`minors, this`marks, this`inuse, this`layout
      ensures Linked() && layout == Place(old(layout), i, 0, req)
      ensures p == UserPtr(NewBlock(old(layout)[i], 0, req))
    {
      ghost var l := layout;
      assert MajorIs(l, majors, i) && MinorIs(l[i], minors, 0);
      var size, first := BodySize(req), maj + MAJOR;
      var cells := LinkFront(minors, maj, majors[maj].first, req, l[i]);
      var header := majors[maj].(first := first, usage := majors[maj].usage + size + MINOR);
      p := Insert(maj, first, header, cells, req, i, 0);
    }

    /** CASE 4.1: room after the last block. */
    method PlaceLast(maj: int, min: int, req: int, ghost i: int) returns (p: int)
      requires Linked() && 0 <= i < |layout| && layout[i].base == maj && layout[i].blocks != []
      requires min == layout[i].blocks[|layout[i].blocks| - 1].addr
      requires 0 <= req && Gap(layout[i], |layout[i].blocks|) >= Need(req)
      modifies this`majors, this`minors, this`marks, this`inuse, this`layout
      ensures Linked() && layout == Place(old(layout), i, |old(layout)[i].blocks|, req)
      ensures p == UserPtr(NewBlock(old(layout)[i], |old(layout)[i].blocks|, req))
    {
      ghost var l := layout;
      ghost var k := |l[i].blocks|;
      assert MajorIs(l, majors, i) && MinorIs(l[i], minors, k - 1);
      BlockSound(l, i, k - 1);
      var size, next := BodySize(req), min + MINOR + minors[min].size;
      var cells := LinkLast(minors, maj, min, next, req, l[i]);
      var header := majors[maj].(usage := majors[maj].usage + size + MINOR);
      p := Insert(maj, next, header, cells, req, i, k);
    }

    /** CASE 4.2: room between block `k - 1` and the next. */
    method PlaceBetween(maj: int, min: int, req: int, ghost i: int, ghost k: int) returns (p: int)
      requires Linked() && 0 <= i < |layout| && layout[i].base == maj
      requires 0 < k < |layout[i].blocks| && min == layout[i].blocks[k - 1].addr
      requires 0 <= req && Gap(layout[i], k) >= Need(req)
      modifies this`majors, this`minors, this`marks, this`inuse, this`layout
      ensures Linked() && layout == Place(old(layout), i, k, req)
      ensures p == UserPtr(NewBlock(old(layout)[i], k, req))
    {
      ghost var l := layout;
      assert MajorIs(l, majors, i) && MinorIs(l[i], minors, k - 1) && MinorIs(l[i], minors, k);
      BlockSound(l, i, k - 1);
      var size, newMin := BodySize(req), min + MINOR + minors[min].size;
      var cells := LinkBetween(minors, maj, min, newMin, minors[min].next, req, l[i], k);
      var header := majors[maj].(usage := majors[maj].usage + size + MINOR);
      p := Insert(maj, newMin, header, cells, req, i, k);
    }

    /** The loop of CASE 4: the block in front of the first gap with room, or null. */
    method ScanMinors(maj: int, req: int, ghost i: int) returns (min: int, ghost k: int)
      requires Linked() && 0 <= i < |layout| && layout[i].base == maj && layout[i].blocks != []
      ensures k == FirstGap(layout[i], 1, Need(req))
      ensures if k < 0 then min == 0 else min == layout[i].blocks[k - 1].addr
    {
      ghost var c := layout[i];
      var size := BodySize(req);
      assert MajorIs(layout, majors, i);
      min := majors[maj].first;
      k := 0;
      while min != 0
        invariant 0 <= k <= |c.blocks| && min == AddrAt(c, k)
        invariant k < |c.blocks| ==> FirstGap(c, k + 1, Need(req)) == FirstGap(c, 1, Need(req))
        invariant k == |c.blocks| ==> FirstGap(c, 1, Need(req)) == -1
        invariant min == 0 ==> k == |c.blocks|
        decreases |c.blocks| - k
      {
        assert MinorIs(c, minors, k);
        if k + 1 < |c.blocks| { BlockSound(layout, i, k + 1); }
        if minors[min].next == 0 {
          var diff := maj + majors[maj].size - min - MINOR - minors[min].size;
          if diff >= size + MINOR { k := k + 1; return; }
        }
        if minors[min].next != 0 {
          var diff := minors[min].next - min - MINOR - minors[min].size;
          if diff >= size + MINOR { k := k + 1; return; }
        }
        min := minors[min].next;
        k := k + 1;
      }
      k := -1;
    }

    /** CASES 2 to 4 for one chunk that has enough free bytes in all. */
    method TryChunk(maj: int, req: int, ghost i: int) returns (p: int)
      requires Linked() && 0 <= i < |layout| && layout[i].base == maj
      requires 0 <= req && FreeBytes(layout[i]) >= Need(req)
      modifies this`majors, this`minors, this`marks, this`inuse, this`layout
      ensures Linked()
      ensures p == 0 <==> !HasRoom(old(layout)[i], Need(req))
      ensures p == 0 ==> layout == old(layout)
      ensures p != 0 ==> layout == PlaceFirstFit(old(layout), i, req) && p == FirstFitPtr(old(layout)[i], req)
    {
      ghost var c := layout[i];
      assert MajorIs(layout, majors, i);
      if c.blocks != [] { BlockSound(layout, i, 0); }
      if HasRoom(c, Need(req)) { UserPtrPositive(c, FirstGap(c, 0, Need(req)), req); }
      if majors[maj].first == 0 {
        p := PlaceFirst(maj, req, i);
        return;
      }
      var diff := majors[maj].first - maj - MAJOR;
      if diff >= BodySize(req) + MINOR {
        p := PlaceFront(maj, req, i);
        return;
      }
      p := TryGaps(maj, req, i);
    }

    /** CASE 4. */
    method TryGaps(maj: int, req: int, ghost i: int) returns (p: int)
      requires Linked() && 0 <= i < |layout| && layout[i].base == maj && layout[i].blocks != [] && 0 <= req
      requires FirstGap(layout[i], 0, Need(req)) == FirstGap(layout[i], 1, Need(req))
      modifies this`majors, this`minors, this`marks, this`inuse, this`layout
      ensures Linked()
      ensures if HasRoom(old(layout)[i], Need(req))
              then layout == PlaceFirstFit(old(layout), i, req) && p == FirstFitPtr(old(layout)[i], req)
              else layout == old(layout) && p == 0
    {
      ghost var c := layout[i];
      var min;
      ghost var k;
      min, k := ScanMinors(maj, req, i);
      if k >= 0 { assert MinorIs(c, minors, k - 1); BlockSound(layout, i, k - 1); }
      if min == 0 {
        p := 0;
      } else if minors[min].next == 0 {
        if k < |c.blocks| { BlockSound(layout, i, k); }
        p := PlaceLast(maj, min, req, i);
      } else {
        p := PlaceBetween(maj, min, req, i, k);
      }
    }

    /** A new chunk after the last one, whose header is at `maj`. */
    method Extend(maj: int, req: int, grant: int) returns (next: int)
      requires Linked() && layout != [] && maj == layout[|layout| - 1].base
      requires Serveable(req) && GrantOk(layout, grant, ChunkSize(BodySize(req)))
      modifies this`majors, this`totalSize, this`layout
      ensures next == grant
      ensures grant == 0 ==> Snapshot() == old(Snapshot()) && layout == old(layout)
      ensures grant != 0 ==> Linked() && layout == old(layout) + [FreshChunk(req, grant)]
    {
      ghost var s := Snapshot();
      ghost var l := layout;
      assert MajorIs(l, majors, |l| - 1);
      if grant != 0 {
        FreshKeepsLayout(l, req, grant);
        BasesDiffer(l + [FreshChunk(req, grant)], |l| - 1, |l|);
      }
      next := AllocNewPage(BodySize(req), grant);
      majors := majors[maj := majors[maj].(next := next)];
      if next == 0 {
        assert majors == s.majors;
        return;
      }
      majors := majors[next := majors[next].(prev := maj)];
      FreshLinked(s, Snapshot(), l, req, grant);
      layout := l + [FreshChunk(req, grant)];
      assert Stands(Snapshot(), layout, layout);
    }

    /** The first chunk of an empty heap. */
    method ExtendRoot(req: int, grant: int)
      requires Linked() && layout == []
      requires Serveable(req) && GrantOk(layout, grant, ChunkSize(BodySize(req)))
      modifies this`majors, this`totalSize, this`memRoot, this`layout
      ensures memRoot == grant
      ensures grant == 0 ==> Snapshot() == old(Snapshot()) && layout == old(layout)
      ensures grant != 0 ==> Linked() && layout == [FreshChunk(req, grant)]
    {
      ghost var s := Snapshot();
      memRoot := AllocNewPage(BodySize(req), grant);
      if memRoot == 0 { return; }
      FreshLinked(s, Snapshot(), [], req, grant);
      assert [] + [FreshChunk(req, grant)] == [FreshChunk(req, grant)];
      layout := [FreshChunk(req, grant)];
      assert Stands(Snapshot(), layout, layout);
    }

    /** Where malloc starts looking: at the remembered chunk if it has room enough, else at the first. */
    method StartSearch(req: int, ghost q: Asking, ghost asked: bool)
      returns (maj: int, startedBet: bool, bestSize: int, ghost c: Cursor)
      requires Linked() && q.Ok() && q.req == req && bestBet == q.bet
      requires if asked then q.l == [] && q.grant != 0 && layout == q.l + [FreshChunk(req, q.grant)]
               else layout == q.l && layout != []
      ensures Searching(q, bestBet, layout, c) && c.asked == asked && !c.looked
      ensures c.maj == maj && c.startedBet == startedBet && c.best == bestSize
    {
      maj, startedBet, bestSize := memRoot, false, 0;
      ghost var i, b := 0, 0;
      if bestBet != 0 {
        b := IndexOf(q.l, bestBet);
        assert MajorIs(layout, majors, b);
        bestSize := majors[bestBet].size - majors[bestBet].usage;
        if bestSize > BodySize(req) + MINOR {
          maj, i, startedBet := bestBet, b, true;
        }
      }
      c := Cursor(maj, i, startedBet, bestSize, b, asked, [], false);
      Begins(q, layout, c);
    }

    /** The chunk looked at has no room: on to the next one, or back to the first if the search began
        elsewhere, or to a fresh chunk. */
    method MoveOn(req: int, grant: int, maj: int, startedBet: bool, ghost q: Asking, ghost c: Cursor)
      returns (failed: bool, maj': int, startedBet': bool, asked: bool, ghost c': Cursor)
      requires Linked() && Searching(q, bestBet, layout, c) && c.looked && !HasRoom(layout[c.i], Need(req))
      requires q.req == req && q.grant == grant && c.maj == maj && c.startedBet == startedBet
      modifies this`majors, this`totalSize, this`layout
      ensures !c.asked && Linked()
      ensures failed ==> asked && Answered(q, layout, 0, true, bestBet)
      ensures !failed ==> Searching(q, bestBet, layout, c') && c'.maj == maj' && c'.startedBet == startedBet'
      ensures !failed ==> c'.asked == asked && Moved(c, c') && c'.best == c.best && !c'.looked
      ensures !failed && asked ==> c.i + 1 == |q.l|
      ensures !failed && !asked ==> layout == old(layout)
    {
      Skipped(q, bestBet, layout, c);
      HeaderOf(Snapshot(), layout, c.i);
      failed, maj', startedBet', asked, c' := false, maj, startedBet, false, c;
      if majors[maj].next != 0 {
        maj', c' := majors[maj].next, Onward(c, layout);
      } else if startedBet {
        maj', startedBet', c' := memRoot, false, Restarted(c, layout);
      } else {
        asked := true;
        failed, maj', c' := Grow(req, grant, maj, q, c);
      }
    }

    /** A fresh chunk behind the last, where the search goes on, or failure. */
    method Grow(req: int, grant: int, maj: int, ghost q: Asking, ghost c: Cursor)
      returns (failed: bool, maj': int, ghost c': Cursor)
      requires Linked() && Searching(q, bestBet, layout, c) && !c.startedBet && !c.asked && q.req == req
      requires q.grant == grant && maj == layout[|layout| - 1].base
      requires c.seen == q.Order() && Passed(q.Order(), |q.Order()|, q.req)
      modifies this`majors, this`totalSize, this`layout
      ensures Linked() && (failed ==> Answered(q, layout, 0, true, bestBet))
      ensures !failed ==> Searching(q, bestBet, layout, c') && c' == Grown(c, q) && maj' == grant
    {
      maj' := Extend(maj, req, grant);
      failed, c' := maj' == 0, Grown(c, q);
      if failed { NotAnswered(q, bestBet); } else { Extended(q, bestBet, c); }
    }

    /** Remembers the chunk looked at if it has more free bytes than any before it. */
    method Look(maj: int, bestSize: int, ghost i: int) returns (diff: int, bestSize': int)
      requires Linked() && 0 <= i < |layout| && layout[i].base == maj
      modifies this`bestBet
      ensures Linked() && diff == FreeBytes(layout[i])
      ensures bestSize' == if bestSize < diff then diff else bestSize
      ensures bestBet == if bestSize < diff then maj else old(bestBet)
    {
      FreeOf(Snapshot(), layout, i);
      diff, bestSize' := majors[maj].size - majors[maj].usage, bestSize;
      if bestSize < diff { bestBet, bestSize' := maj, diff; }
      assert Stands(Snapshot(), layout, layout);
    }

    /** CASES 2 to 4 as one step of the search. */
    method Serve(req: int, maj: int, ghost q: Asking, ghost c: Cursor) returns (p: int)
      requires Linked() && Searching(q, bestBet, layout, c) && q.req == req && c.maj == maj
      requires FreeBytes(layout[c.i]) >= Need(req) && (if c.asked then c.looked <==> q.DueLook() else c.looked)
      modifies this`majors, this`minors, this`marks, this`inuse, this`layout
      ensures Linked()
      ensures p != 0 ==> Answered(q, layout, p, c.asked, bestBet)
      ensures p == 0 ==> layout == old(layout) && !c.asked && !HasRoom(layout[c.i], Need(req))
    {
      ghost var l := layout;
      p := TryChunk(maj, req, c.i);
      Served(q, bestBet, l, c, layout, p);
    }

    /** The request is served from the chunk looked at, or the search goes on. */
    method ServeOrMoveOn(req: int, grant: int, maj: int, startedBet: bool, asked: bool, ghost q: Asking,
                         ghost c: Cursor)
      returns (done: bool, p: int, maj': int, startedBet': bool, asked': bool, ghost c': Cursor)
      requires Linked() && Searching(q, bestBet, layout, c) && q.req == req && q.grant == grant
      requires c.maj == maj && c.startedBet == startedBet && c.asked == asked
      requires FreeBytes(layout[c.i]) >= Need(req) && (if c.asked then c.looked <==> q.DueLook() else c.looked)
      modifies this`majors, this`minors, this`marks, this`inuse, this`totalSize, this`layout
      ensures Linked()
      ensures done ==> Answered(q, layout, p, asked', bestBet)
      ensures !done ==> !asked && Searching(q, bestBet, layout, c') && !c'.looked && Moved(c, c')
      ensures !done ==> c'.maj == maj' && c'.startedBet == startedBet' && c'.best == c.best && c'.asked == asked'
      ensures !done && asked' ==> q.DueLook()
      ensures !done && !asked' ==> layout == old(layout)
    {
      p := Serve(req, maj, q, c);
      if p != 0 { return true, p, maj, startedBet, asked, c; }
      done, maj', startedBet', asked', c' := MoveOn(req, grant, maj, startedBet, q, c);
    }

    /** CASE 1: the chunk is passed over for its free bytes; a fresh chunk is used at once. */
    method PassOver(req: int, grant: int, maj: int, startedBet: bool, ghost q: Asking, ghost c: Cursor)
      returns (done: bool, p: int, maj': int, startedBet': bool, asked': bool, ghost c': Cursor)
      requires Linked() && Searching(q, bestBet, layout, c) && c.looked && FreeBytes(layout[c.i]) < Need(req)
      requires q.req == req && q.grant == grant && c.maj == maj && c.startedBet == startedBet
      modifies this`majors, this`minors, this`marks, this`inuse, this`totalSize, this`layout
      ensures Linked()
      ensures done ==> Answered(q, layout, p, asked', bestBet)
      ensures !done ==> !c.asked && Looking(q, bestBet, layout, c', maj', startedBet', c.best, asked') && Moved(c, c')
      ensures !done && !asked' ==> layout == old(layout)
    {
      var failed;
      NoRoomWhenFull(layout[c.i], Need(req));
      failed, maj', startedBet', asked', c' := MoveOn(req, grant, maj, startedBet, q, c);
      if failed { return true, 0, maj, startedBet, true, c; }
      if !asked' { return false, 0, maj', startedBet', asked', c'; }
      FreshHasRoom(q);
      p := Serve(req, maj', q, c');
      done := true;
    }

    /** One round of malloc's outer loop: remember the chunk if it is the freest so far, then serve the
        request from it or move on. */
    method Round(req: int, grant: int, maj: int, startedBet: bool, bestSize: int, asked: bool, ghost q: Asking,
                 ghost c: Cursor)
      returns (done: bool, p: int, maj': int, startedBet': bool, bestSize': int, asked': bool, ghost c': Cursor)
      requires Linked() && Looking(q, bestBet, layout, c, maj, startedBet, bestSize, asked)
      requires q.req == req && q.grant == grant
      modifies this`majors, this`minors, this`marks, this`memRoot, this`bestBet, this`totalSize, this`inuse, this`layout
      ensures Linked()
      ensures done ==> Answered(q, layout, p, asked', bestBet)
      ensures !done ==> !asked && Looking(q, bestBet, layout, c', maj', startedBet', bestSize', asked') && Moved(c, c')
      ensures !done && !asked' ==> layout == old(layout)
    {
      Looked(q, bestBet, layout, c);
      ghost var c1 := Seeing(c, layout[c.i]);
      var diff;
      diff, bestSize' := Look(maj, bestSize, c.i);
      if diff < BodySize(req) + MINOR {
        done, p, maj', startedBet', asked', c' := PassOver(req, grant, maj, startedBet, q, c1);
      } else {
        done, p, maj', startedBet', asked', c' := ServeOrMoveOn(req, grant, maj, startedBet, asked, q, c1);
      }
    }

    /** malloc. The page allocator would answer `grant` and is asked at most once; `asked` says whether
        it was. */
    method Malloc(req: int, grant: int) returns (p: int, asked: bool)
      requires Valid() && Serveable(req) && GrantOk(layout, grant, ChunkSize(BodySize(req)))
      modifies this`majors, this`minors, this`marks, this`memRoot, this`bestBet, this`totalSize, this`inuse, this`layout
      ensures Valid()
      ensures Answered(Asking(old(layout), old(bestBet), req, grant), layout, p, asked, bestBet)
      ensures ServesFirst(Asking(old(layout), old(bestBet), req, grant), layout, p, asked, bestBet)
      ensures ServesAfresh(Asking(old(layout), old(bestBet), req, grant), layout, p, asked, bestBet)
    {
      ghost var q := Asking(layout, bestBet, req, grant);
      asked := false;
      p := 0;
      RootIsNull(Snapshot(), layout);
      if memRoot == 0 {
        ExtendRoot(req, grant);
        asked := true;
        if memRoot == 0 {
          NotAnswered(q, bestBet);
          AnsweredServes(q, layout, p, asked, bestBet);
          return;
        }
      }
      p, asked := Search(req, grant, asked, q);
      AnsweredServes(q, layout, p, asked, bestBet);
    }

    /** The search of malloc, once there is a chunk. */
    method Search(req: int, grant: int, asked: bool, ghost q: Asking) returns (p: int, asked': bool)
      requires Linked() && q.Ok() && q.req == req && q.grant == grant && bestBet == q.bet
      requires if asked then q.l == [] && grant != 0 && layout == q.l + [FreshChunk(req, grant)]
               else layout == q.l && layout != []
      modifies this`majors, this`minors, this`marks, this`memRoot, this`bestBet, this`totalSize, this`inuse, this`layout
      ensures Linked() && Answered(q, layout, p, asked', bestBet)
    {
      asked', p := asked, 0;
      var maj, startedBet, bestSize;
      ghost var c;
      maj, startedBet, bestSize, c := StartSearch(req, q, asked);
      var done := false;
      while !done
        invariant Linked()
        invariant !done ==> Looking(q, bestBet, layout, c, maj, startedBet, bestSize, asked')
        invariant done ==> Answered(q, layout, p, asked', bestBet)
        decreases !done, startedBet, !asked', |layout| - c.i
      {
        done, p, maj, startedBet, bestSize, asked', c := Round(req, grant, maj, startedBet, bestSize, asked', q, c);
      }
    }

    /** Takes block `j` of chunk `i`, whose header is at `min`, out of its chunk's list. */
    method Unlink(min: int, ghost i: int, ghost j: int) returns (maj: int)
      requires Linked() && 0 <= i < |layout| && 0 <= j < |layout[i].blocks| && min == layout[i].blocks[j].addr
      modifies this`majors, this`minors, this`marks, this`inuse, this`layout
      ensures Linked() && layout == old(layout)[i := Without(old(layout)[i], j)]
      ensures maj == layout[i].base && marks == old(marks)
      ensures min in minors && minors[min].magic == Dead
    {
      var s := Snapshot();
      ghost var l := layout;
      assert MajorIs(l, majors, i) && MinorIs(l[i], minors, j);
      var size, prev, next := minors[min].size, minors[min].prev, minors[min].next;
      maj := minors[min].block;
      var header := majors[maj].(usage := majors[maj].usage - (size + MINOR));
      var cells := JoinMinors(minors, min, l[i], j);
      if prev == 0 { header := header.(first := next); }
      if j > 0 { BlockSound(l, i, j - 1); }
      var after := s.(majors := majors[maj := header], minors := cells, inuse := Wrapped(inuse - size));
      UnlinkedLinked(s, after, l, i, j);
      StoreCells(after);
      layout := l[i := Without(l[i], j)];
      assert Stands(Snapshot(), layout, layout);
    }

    /** Takes chunk `i`, which has no blocks left, out of the list and gives its pages back. */
    method DropChunk(maj: int, ghost i: int)
      requires Linked() && 0 <= i < |layout| && layout[i].base == maj && layout[i].blocks == []
      modifies this
      ensures Linked() && layout == Remove(old(layout), i)
      ensures bestBet == if old(bestBet) == maj then 0 else old(bestBet)
      ensures returned == old(returned) + [Pages(maj, old(layout)[i].size / 0x1000)]
    {
      ghost var s := Snapshot();
      ghost var l := layout;
      assert MajorIs(l, majors, i);
      var size, next := majors[maj].size, majors[maj].next;
      ghost var pages := majors[maj].pages;
      var headers := JoinMajors(majors, maj, l, i);
      var root, bet := memRoot, bestBet;
      if root == maj { root := next; }
      if bet == maj { bet := 0; }
      var after := State(headers, Wipe(minors, MINOR, maj, maj + size), Wipe(marks, 1, maj, maj + size),
                         root, bet, Wrapped(totalSize - size), inuse);
      DroppedLinked(s, after, l, i);
      Store(after);
      layout := Remove(l, i);
      returned := returned + [Pages(maj, pages)];
      assert Stands(Snapshot(), layout, layout);
    }

    /** The end of free for a chunk that keeps blocks: remember it if it now has the most free bytes,
        compared as 32-bit signed numbers. */
    method Reconsider(maj: int, ghost i: int)
      requires Linked() && 0 <= i < |layout| && layout[i].base == maj
      modifies this`bestBet
      ensures Linked() && bestBet == BetAfterRelease(layout, i, old(bestBet))
    {
      if bestBet != 0 {
        ghost var b := IndexOf(layout, bestBet);
        FreeOf(Snapshot(), layout, i);
        FreeOf(Snapshot(), layout, b);
        var bestSize := Int32(majors[bestBet].size - majors[bestBet].usage);
        var majSize := Int32(majors[maj].size - majors[maj].usage);
        if majSize > bestSize { bestBet := maj; }
      }
      assert Stands(Snapshot(), layout, layout);
    }

    /** free, once the pointer is known to be block `j` of chunk `i`, whose header is at `min`. */
    method FreeLive(min: int, ghost ptr: int, ghost i: int, ghost j: int)
      requires Valid() && At(layout, i, j, ptr) && min == layout[i].blocks[j].addr
      modifies this
      ensures Valid() && Released(old(layout), i, j, old(bestBet), ptr, Snapshot(), layout)
      ensures returned == old(returned) + HandedBack(old(layout)[i])
    {
      ghost var l := layout;
      assert MarkIs(l[i], marks, j);
      UnalignUndoesAlign(l[i].blocks[j].addr + MINOR);
      ReleaseKeepsLayout(l, i, j);
      var maj := Unlink(min, i, j);
      ghost var m := layout;
      Settle(maj, i);
      if |l[i].blocks| == 1 { assert Remove(m, i) == Remove(l, i); }
    }

    /** The end of free: a chunk without blocks goes, another is considered for being remembered. */
    method Settle(maj: int, ghost i: int)
      requires Linked() && 0 <= i < |layout| && layout[i].base == maj
      modifies this
      ensures Linked()
      ensures old(layout)[i].blocks == [] ==>
        layout == Remove(old(layout), i) && bestBet == if old(bestBet) == maj then 0 else old(bestBet)
      ensures old(layout)[i].blocks != [] ==>
        layout == old(layout) && bestBet == BetAfterRelease(layout, i, old(bestBet))
      ensures old(layout)[i].blocks != [] ==> marks == old(marks) && minors == old(minors)
      ensures returned == old(returned) +
        if old(layout)[i].blocks == [] then [Pages(maj, old(layout)[i].size / 0x1000)] else []
    {
      assert MajorIs(layout, majors, i);
      if layout[i].blocks != [] { BlockSound(layout, i, 0); }
      if majors[maj].first == 0 {
        DropChunk(maj, i);
      } else {
        Reconsider(maj, i);
      }
    }

    /** free, of null, of a pointer malloc returned, or of one already freed. */
    method Free(ptr: int)
      requires Valid()
      requires ptr == 0 || (exists i, j :: At(layout, i, j, ptr)) || Stale(Snapshot(), ptr)
      modifies this
      ensures Valid()
      ensures (forall i, j :: !At(old(layout), i, j, ptr)) ==>
                layout == old(layout) && Snapshot() == old(Snapshot()) && returned == old(returned)
      ensures forall i, j | At(old(layout), i, j, ptr) ::
                Released(old(layout), i, j, old(bestBet), ptr, Snapshot(), layout)
                && returned == old(returned) + HandedBack(old(layout)[i])
    {
      if ptr == 0 { NullIsNobodys(layout); return; }
      ghost var i, j := 0, 0;
      if exists i, j :: At(layout, i, j, ptr) {
        i, j :| At(layout, i, j, ptr);
        OnlyThere(layout, i, j, ptr);
        LiveHeader(Snapshot(), layout, i, j, ptr);
      }
      var min := Unalign(ptr, marks[ptr - ALIGN_INFO]) - MINOR;
      if minors[min].magic != Marker { return; }
      FreeLive(min, ptr, i, j);
    }
  }

  /** The block malloc placed, and the pages that releasing it hands back: those granted for it, if any were. */
  ghost predicate Undoable(q: Asking, l': Layout, p: int, asked: bool, i: int, j: int) {
    if p == 0 then
      asked && q.grant == 0 && l' == q.l
    else
      && At(l', i, j, p) && Release(l', i, j) == q.l && (asked ==> q.grant != 0)
      && HandedBack(l'[i]) == if asked then [Pages(q.grant, PagesFor(BodySize(q.req)))] else []
  }

  /** A block is alone in its chunk iff the chunk was granted for it. */
  lemma GrantComesBack(l: Layout, req: int, start: int, grant: int, m: Layout, i: int)
    requires NoEmptyChunk(l) && 0 <= start <= |l| && Serveable(req) && m == Alloc(l, req, start, grant)
    requires SpotFor(l, req, start, grant).Spot? && SpotFor(l, req, start, grant).chunk == i < |m|
    ensures HandedBack(m[i]) == if i == |l| then [Pages(grant, PagesFor(BodySize(req)))] else []
  {
    FreshChunkFitsIff(req);
  }

  lemma AnswerIsUndoable(q: Asking, l': Layout, p: int, asked: bool, bet': int) returns (i: int, j: int)
    requires NoEmptyChunk(q.l) && Answered(q, l', p, asked, bet')
    ensures Undoable(q, l', p, asked, i, j)
  {
    i, j := 0, 0;
    if q.Spot().Spot? {
      i, j := q.Spot().chunk, q.Spot().gap;
      ReleaseUndoesAlloc(q.l, q.req, q.Start(), q.grant);
      GrantComesBack(q.l, q.req, q.Start(), q.grant, l', i);
    }
  }

  lemma TotalsFollow(s: State, s': State, l: Layout)
    requires (exists m :: Stands(s, m, l)) && (exists m :: Stands(s', m, l))
    ensures s'.memRoot == s.memRoot && s'.inuse == s.inuse && s'.totalSize == s.totalSize
  {
  }

  method MallocFor(h: Allocator, req: int, grant: int, ghost q: Asking) returns (p: int, asked: bool)
    requires h.Valid() && Serveable(req) && GrantOk(h.layout, grant, ChunkSize(BodySize(req)))
    requires q == Asking(h.layout, h.bestBet, req, grant)
    modifies h
    ensures h.Valid() && h.returned == old(h.returned) && Answered(q, h.layout, p, asked, h.bestBet)
  {
    p, asked := h.Malloc(req, grant);
  }

  method FreeAnswer(h: Allocator, p: int, ghost q: Asking, ghost asked: bool)
    requires h.Valid() && NoEmptyChunk(q.l) && Answered(q, h.layout, p, asked, h.bestBet)
    modifies h
    ensures h.Valid() && h.layout == q.l
    ensures h.returned == old(h.returned) +
      if asked && q.grant != 0 then [Pages(q.grant, PagesFor(BodySize(q.req)))] else []
  {
    ghost var i, j := AnswerIsUndoable(q, h.layout, p, asked, h.bestBet);
    NullIsNobodys(h.layout);
    h.Free(p);
  }

  /** free after malloc: the chunks, the blocks, the totals and the root are those from before, and so,
      by `LayoutFixesHeaders`, is every live header. The page allocator gets back the pages it gave, if any. */
  method MallocThenFree(h: Allocator, req: int, grant: int) returns (p: int, asked: bool)
    requires h.Valid() && Serveable(req) && GrantOk(h.layout, grant, ChunkSize(BodySize(req)))
    modifies h
    ensures h.Valid() && h.layout == old(h.layout)
    ensures h.memRoot == old(h.memRoot) && h.inuse == old(h.inuse) && h.totalSize == old(h.totalSize)
    ensures h.returned == old(h.returned) +
      if asked && grant != 0 then [Pages(grant, PagesFor(BodySize(req)))] else []
  {
    ghost var s, q := h.Snapshot(), Asking(h.layout, h.bestBet, req, grant);
    p, asked := MallocFor(h, req, grant, q);
    FreeAnswer(h, p, q, asked);
    TotalsFollow(s, h.Snapshot(), q.l);
  }
}
