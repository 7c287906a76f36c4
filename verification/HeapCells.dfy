/**
  Chunk headers, block headers and alignment bytes as cells at addresses: what each holds for a given
  layout, and what linking a header in or out does to them.
 */
module HeapCells {
  import opened Common
  import opened HeapLayout

  datatype Magic = Marker | Dead

  datatype Major = Major(pages: int, size: int, usage: int, prev: int, next: int, first: int)
  datatype Minor = Minor(magic: Magic, size: int, req: int, prev: int, next: int, block: int)

  /** Conversion of a 32-bit unsigned value to `int`. */
  function Int32(x: int): int {
    if x % 0x1_0000_0000 < 0x8000_0000 then x % 0x1_0000_0000 else x % 0x1_0000_0000 - 0x1_0000_0000
  }

  // ----- What the headers of a layout hold -----------------------------------------------------

  function BaseAt(l: Layout, i: int): int { if 0 <= i < |l| then l[i].base else 0 }

  function AddrAt(c: Chunk, j: int): int { if 0 <= j < |c.blocks| then c.blocks[j].addr else 0 }

  ghost function MajorOf(l: Layout, i: int): Major
    requires 0 <= i < |l|
  {
    Major(l[i].size / 0x1000, l[i].size, Usage(l[i]), BaseAt(l, i - 1), BaseAt(l, i + 1), AddrAt(l[i], 0))
  }

  ghost function MinorOf(c: Chunk, j: int): Minor
    requires 0 <= j < |c.blocks|
  {
    Minor(Marker, c.blocks[j].size, c.blocks[j].req, AddrAt(c, j - 1), AddrAt(c, j + 1), c.base)
  }

  function MarkAddr(b: Block): int { UserPtr(b) - ALIGN_INFO }

  ghost predicate MajorIs(l: Layout, majors: map<int, Major>, i: int)
    requires 0 <= i < |l|
  {
    l[i].base in majors && majors[l[i].base] == MajorOf(l, i)
  }

  ghost predicate MinorIs(c: Chunk, minors: map<int, Minor>, j: int)
    requires 0 <= j < |c.blocks|
  {
    c.blocks[j].addr in minors && minors[c.blocks[j].addr] == MinorOf(c, j)
  }

  ghost predicate MarkIs(c: Chunk, marks: map<int, int>, j: int)
    requires 0 <= j < |c.blocks|
  {
    var b := c.blocks[j];
    MarkAddr(b) in marks && marks[MarkAddr(b)] == AlignByte(b.addr + MINOR)
  }

  ghost predicate MajorsMatch(l: Layout, majors: map<int, Major>) {
    forall i | 0 <= i < |l| :: MajorIs(l, majors, i)
  }

  ghost predicate MinorsMatch(c: Chunk, minors: map<int, Minor>) {
    forall j | 0 <= j < |c.blocks| :: MinorIs(c, minors, j)
  }

  ghost predicate MarksMatch(c: Chunk, marks: map<int, int>) {
    forall j | 0 <= j < |c.blocks| :: MarkIs(c, marks, j)
  }

  ghost predicate CellsMatch(l: Layout, minors: map<int, Minor>, marks: map<int, int>) {
    forall i | 0 <= i < |l| :: MinorsMatch(l[i], minors) && MarksMatch(l[i], marks)
  }

  /** The known cells of `width` bytes that do not overlap the bytes from `lo` to `hi`. */
  function Wipe<V>(m: map<int, V>, width: int, lo: int, hi: int): map<int, V> {
    map a | a in m && (a + width <= lo || hi <= a) :: m[a]
  }

  // ----- Splicing a block header in -------------------------------------------------------------

  /** `minors'` is `minors` with the header of a new block linked in at gap `k` of `c`; cells that the
      block's bytes overlap are gone. */
  ghost predicate Spliced(minors: map<int, Minor>, minors': map<int, Minor>, c: Chunk, k: int, req: int)
    requires 0 <= k <= |c.blocks|
  {
    var h := GapLo(c, k);
    && h in minors'
    && minors'[h] == Minor(Marker, BodySize(req), req, AddrAt(c, k - 1), AddrAt(c, k), c.base)
    && forall a | a in minors && (a + MINOR <= h || h + Need(req) <= a) ::
         && a in minors'
         && minors'[a] == (if 0 < k && a == c.blocks[k - 1].addr then minors[a].(next := h)
                           else if k < |c.blocks| && a == c.blocks[k].addr then minors[a].(prev := h)
                           else minors[a])
  }

  ghost predicate Marked(marks: map<int, int>, marks': map<int, int>, h: int, req: int) {
    var m := AlignUp(h + MINOR) - ALIGN_INFO;
    && m in marks' && marks'[m] == AlignByte(h + MINOR)
    && forall a | a in marks && (a + 1 <= h || h + Need(req) <= a) :: a in marks' && marks'[a] == marks[a]
  }

  lemma SpliceMatches(c: Chunk, k: int, req: int, minors: map<int, Minor>, minors': map<int, Minor>)
    requires ChunkOk(c) && 0 <= k <= |c.blocks| && 0 <= req && Gap(c, k) >= Need(req)
    requires MinorsMatch(c, minors) && Spliced(minors, minors', c, k, req)
    ensures MinorsMatch(PlaceIn(c, k, req), minors')
  {
    var d := PlaceIn(c, k, req);
    forall j | 0 <= j < |d.blocks|
      ensures MinorIs(d, minors', j)
    {
      SpliceMatchesAt(c, k, req, minors, minors', j);
    }
  }

  lemma SpliceMatchesAt(c: Chunk, k: int, req: int, minors: map<int, Minor>, minors': map<int, Minor>, j: int)
    requires ChunkOk(c) && 0 <= k <= |c.blocks| && 0 <= req && Gap(c, k) >= Need(req)
    requires MinorsMatch(c, minors) && Spliced(minors, minors', c, k, req)
    requires 0 <= j <= |c.blocks|
    ensures MinorIs(PlaceIn(c, k, req), minors', j)
  {
    MinorAfterPlace(c, k, req, j);
    if j < k {
      KeptBefore(c, k, req, minors, minors', j);
    } else if k < j {
      KeptAfter(c, k, req, minors, minors', j - 1);
    }
  }

  lemma MinorAfterPlace(c: Chunk, k: int, req: int, j: int)
    requires 0 <= k <= |c.blocks| && 0 <= j <= |c.blocks|
    ensures var d := PlaceIn(c, k, req);
            && d.blocks[j].addr ==
              (if j < k then c.blocks[j].addr else if j == k then GapLo(c, k) else c.blocks[j - 1].addr)
            && MinorOf(d, j) ==
                 if j < k then MinorOf(c, j).(next := if j == k - 1 then GapLo(c, k) else AddrAt(c, j + 1))
                 else if j == k then Minor(Marker, BodySize(req), req, AddrAt(c, k - 1), AddrAt(c, k), c.base)
                 else MinorOf(c, j - 1).(prev := if j - 1 == k then GapLo(c, k) else AddrAt(c, j - 2))
  {
    InsertAt(c.blocks, k, NewBlock(c, k, req), j);
    AddrAfterPlace(c, k, req, j - 1);
    AddrAfterPlace(c, k, req, j + 1);
  }

  lemma KeptBefore(c: Chunk, k: int, req: int, minors: map<int, Minor>, minors': map<int, Minor>, j: int)
    requires ChunkOk(c) && 0 <= k <= |c.blocks| && 0 <= req && Gap(c, k) >= Need(req)
    requires MinorsMatch(c, minors) && Spliced(minors, minors', c, k, req)
    requires 0 <= j < k
    ensures c.blocks[j].addr in minors'
    ensures minors'[c.blocks[j].addr]
         == MinorOf(c, j).(next := if j == k - 1 then GapLo(c, k) else AddrAt(c, j + 1))
  {
    var a := c.blocks[j].addr;
    assert MinorIs(c, minors, j);
    assert a + MINOR <= GapLo(c, k) by {
      GapOrder(c, k, j);
      assert BlockOk(c, c.blocks[j]);
    }
    if j < k - 1 { AddrsDiffer(c, j, k - 1); }
    if k < |c.blocks| { AddrsDiffer(c, j, k); }
  }

  lemma KeptAfter(c: Chunk, k: int, req: int, minors: map<int, Minor>, minors': map<int, Minor>, j: int)
    requires ChunkOk(c) && 0 <= k <= |c.blocks| && 0 <= req && Gap(c, k) >= Need(req)
    requires MinorsMatch(c, minors) && Spliced(minors, minors', c, k, req)
    requires k <= j < |c.blocks|
    ensures c.blocks[j].addr in minors'
    ensures minors'[c.blocks[j].addr]
         == MinorOf(c, j).(prev := if j == k then GapLo(c, k) else AddrAt(c, j - 1))
  {
    var a := c.blocks[j].addr;
    assert MinorIs(c, minors, j);
    assert GapLo(c, k) + Need(req) <= a by {
      GapOrder(c, k, j);
    }
    if k < j { AddrsDiffer(c, k, j); }
    if 0 < k { AddrsDiffer(c, k - 1, j); }
  }

  lemma AddrAfterPlace(c: Chunk, k: int, req: int, j: int)
    requires 0 <= k <= |c.blocks|
    ensures AddrAt(PlaceIn(c, k, req), j)
         == if j < k then AddrAt(c, j) else if j == k then GapLo(c, k) else AddrAt(c, j - 1)
  {
    if 0 <= j <= |c.blocks| { InsertAt(c.blocks, k, NewBlock(c, k, req), j); }
  }

  lemma AddrsDiffer(c: Chunk, j: int, k: int)
    requires ChunkOk(c) && 0 <= j < k < |c.blocks|
    ensures c.blocks[j].addr + MINOR < c.blocks[k].addr
  {
    assert BlockOk(c, c.blocks[j]);
  }

  lemma MarkMatches(c: Chunk, k: int, req: int, marks: map<int, int>, marks': map<int, int>)
    requires ChunkOk(c) && 0 <= k <= |c.blocks| && 0 <= req && Gap(c, k) >= Need(req)
    requires MarksMatch(c, marks) && Marked(marks, marks', GapLo(c, k), req)
    ensures MarksMatch(PlaceIn(c, k, req), marks')
  {
    var d := PlaceIn(c, k, req);
    forall j | 0 <= j < |d.blocks|
      ensures MarkIs(d, marks', j)
    {
      InsertAt(c.blocks, k, NewBlock(c, k, req), j);
      if j < k {
        assert MarkIs(c, marks, j);
        GapOrder(c, k, j);
        MarkInside(c, j);
      } else if k < j {
        assert MarkIs(c, marks, j - 1);
        GapOrder(c, k, j - 1);
        MarkInside(c, j - 1);
      }
    }
  }

  lemma MarkInside(c: Chunk, j: int)
    requires ChunkOk(c) && 0 <= j < |c.blocks|
    ensures c.blocks[j].addr < MarkAddr(c.blocks[j]) < End(c.blocks[j])
  {
    assert BlockOk(c, c.blocks[j]);
    UnalignUndoesAlign(c.blocks[j].addr + MINOR);
  }

  /** A chunk apart from the spliced one keeps its cells. */
  lemma OtherChunkKept(c: Chunk, k: int, req: int, e: Chunk,
                       minors: map<int, Minor>, minors': map<int, Minor>, marks: map<int, int>, marks': map<int, int>)
    requires ChunkOk(c) && 0 <= k <= |c.blocks| && 0 <= req && Gap(c, k) >= Need(req)
    requires ChunkOk(e) && Apart(c, e)
    requires MinorsMatch(e, minors) && Spliced(minors, minors', c, k, req)
    requires MarksMatch(e, marks) && Marked(marks, marks', GapLo(c, k), req)
    ensures MinorsMatch(e, minors') && MarksMatch(e, marks')
  {
    GapInside(c, k);
    if 0 < k { assert BlockOk(c, c.blocks[k - 1]); }
    if k < |c.blocks| { assert BlockOk(c, c.blocks[k]); }
    forall j | 0 <= j < |e.blocks|
      ensures MinorIs(e, minors', j) && MarkIs(e, marks', j)
    {
      assert MinorIs(e, minors, j) && MarkIs(e, marks, j);
      assert BlockOk(e, e.blocks[j]);
      MarkInside(e, j);
    }
  }

  lemma PlaceMatches(l: Layout, i: int, k: int, req: int,
                     minors: map<int, Minor>, minors': map<int, Minor>, marks: map<int, int>, marks': map<int, int>)
    requires LayoutOk(l) && 0 <= i < |l| && 0 <= k <= |l[i].blocks| && 0 <= req && Gap(l[i], k) >= Need(req)
    requires CellsMatch(l, minors, marks)
    requires Spliced(minors, minors', l[i], k, req) && Marked(marks, marks', GapLo(l[i], k), req)
    ensures CellsMatch(Place(l, i, k, req), minors', marks')
  {
    var m := Place(l, i, k, req);
    forall e | 0 <= e < |m| ensures MinorsMatch(m[e], minors') && MarksMatch(m[e], marks') {
      if e == i {
        SpliceMatches(l[i], k, req, minors, minors');
        MarkMatches(l[i], k, req, marks, marks');
      } else {
        assert Apart(l[i], l[e]) by { if i < e { assert Apart(l[i], l[e]); } else { assert Apart(l[e], l[i]); } }
        OtherChunkKept(l[i], k, req, l[e], minors, minors', marks, marks');
      }
    }
  }

  /** The chunk headers after a block was placed: only `usage` and perhaps `first` of one of them. */
  lemma PlaceMajors(l: Layout, i: int, k: int, req: int, majors: map<int, Major>, majors': map<int, Major>)
    requires LayoutOk(l) && 0 <= i < |l| && 0 <= k <= |l[i].blocks|
    requires MajorsMatch(l, majors) && MajorIs(l, majors, i)
    requires var m := majors[l[i].base];
             majors' == majors[l[i].base := m.(usage := m.usage + BodySize(req) + MINOR,
                                               first := if k == 0 then GapLo(l[i], 0) else m.first)]
    ensures MajorsMatch(Place(l, i, k, req), majors')
  {
    var m := Place(l, i, k, req);
    PlaceInUsage(l[i], k, req);
    AddrAfterPlace(l[i], k, req, 0);
    forall e | 0 <= e < |m| ensures MajorIs(m, majors', e) {
      MajorAfterUpdate(l, i, m[i], e);
      assert MajorIs(l, majors, e);
      if e != i { BasesDiffer(l, e, i); }
    }
  }

  lemma MajorAfterUpdate(l: Layout, i: int, d: Chunk, e: int)
    requires 0 <= i < |l| && 0 <= e < |l| && d.base == l[i].base && d.size == l[i].size
    ensures MajorOf(l[i := d], e)
         == if e != i then MajorOf(l, e) else MajorOf(l, i).(usage := Usage(d), first := AddrAt(d, 0))
  {
    assert BaseAt(l[i := d], e - 1) == BaseAt(l, e - 1);
    assert BaseAt(l[i := d], e + 1) == BaseAt(l, e + 1);
  }

  lemma BasesDiffer(l: Layout, i: int, j: int)
    requires LayoutOk(l) && 0 <= i < |l| && 0 <= j < |l| && i != j
    ensures l[i].base != l[j].base
  {
    assert ChunkOk(l[i]) && ChunkOk(l[j]);
    if i < j { assert Apart(l[i], l[j]); } else { assert Apart(l[j], l[i]); }
  }

  // The four ways the code links a block in.

  lemma SpliceEmpty(minors: map<int, Minor>, c: Chunk, req: int)
    requires c.blocks == [] && 0 <= req
    ensures var h := c.base + MAJOR;
            Spliced(minors, Wipe(minors, MINOR, h, h + Need(req))[h := Minor(Marker, BodySize(req), req, 0, 0, c.base)],
                    c, 0, req)
  {
  }

  lemma SpliceFront(minors: map<int, Minor>, c: Chunk, req: int)
    requires c.blocks != [] && c.blocks[0].addr in minors && 0 <= req
    requires c.base + MAJOR + Need(req) <= c.blocks[0].addr
    ensures var h, next := c.base + MAJOR, c.blocks[0].addr;
            var m := Wipe(minors, MINOR, h, h + Need(req));
            Spliced(minors, m[next := m[next].(prev := h)][h := Minor(Marker, BodySize(req), req, 0, next, c.base)],
                    c, 0, req)
  {
  }

  lemma SpliceLast(minors: map<int, Minor>, c: Chunk, req: int)
    requires c.blocks != [] && 0 <= req
    requires var b := c.blocks[|c.blocks| - 1]; b.addr in minors && 0 <= b.size
    ensures var k := |c.blocks|;
            var h, min := End(c.blocks[k - 1]), c.blocks[k - 1].addr;
            var m := Wipe(minors, MINOR, h, h + Need(req));
            Spliced(minors, m[min := m[min].(next := h)][h := Minor(Marker, BodySize(req), req, min, 0, c.base)],
                    c, k, req)
  {
  }

  lemma SpliceBetween(minors: map<int, Minor>, c: Chunk, k: int, req: int)
    requires 0 < k < |c.blocks| && 0 <= req && 0 <= c.blocks[k - 1].size
    requires c.blocks[k - 1].addr in minors && c.blocks[k].addr in minors
    requires End(c.blocks[k - 1]) + Need(req) <= c.blocks[k].addr
    ensures var h, min, next := End(c.blocks[k - 1]), c.blocks[k - 1].addr, c.blocks[k].addr;
            var m := Wipe(minors, MINOR, h, h + Need(req))[h := Minor(Marker, BodySize(req), req, min, next, c.base)];
            var m' := m[next := m[next].(prev := h)];
            Spliced(minors, m'[min := m'[min].(next := h)], c, k, req)
  {
  }

  lemma MarkSplice(marks: map<int, int>, h: int, req: int)
    requires 0 <= req
    ensures var wiped := Wipe(marks, 1, h, h + Need(req));
            Marked(marks, wiped[AlignUp(h + MINOR) - ALIGN_INFO := AlignByte(h + MINOR)], h, req)
  {
    UnalignUndoesAlign(h + MINOR);
  }

  // ----- Taking a block header out --------------------------------------------------------------

  function Without(c: Chunk, j: int): Chunk
    requires 0 <= j < |c.blocks|
  {
    c.(blocks := Remove(c.blocks, j))
  }

  /** `minors'` is `minors` with the header of block `j` of `c` marked dead and its neighbours joined. */
  ghost predicate Unlinked(minors: map<int, Minor>, minors': map<int, Minor>, c: Chunk, j: int)
    requires 0 <= j < |c.blocks|
  {
    var h := c.blocks[j].addr;
    && h in minors' && minors'[h].magic == Dead
    && forall a | a in minors && a != h ::
         && a in minors'
         && minors'[a] == (if 0 < j && a == c.blocks[j - 1].addr then minors[a].(next := AddrAt(c, j + 1))
                           else if j + 1 < |c.blocks| && a == c.blocks[j + 1].addr
                           then minors[a].(prev := AddrAt(c, j - 1))
                           else minors[a])
  }

  lemma RemoveAt<T>(s: seq<T>, j: int, x: int)
    requires 0 <= j < |s| && 0 <= x < |s| - 1
    ensures Remove(s, j)[x] == if x < j then s[x] else s[x + 1]
  {
  }

  lemma AddrAfterRemove(c: Chunk, j: int, x: int)
    requires 0 <= j < |c.blocks|
    ensures AddrAt(Without(c, j), x) == if x < j then AddrAt(c, x) else AddrAt(c, x + 1)
  {
    if 0 <= x < |c.blocks| - 1 { RemoveAt(c.blocks, j, x); }
  }

  lemma UnlinkMatches(c: Chunk, j: int, minors: map<int, Minor>, minors': map<int, Minor>)
    requires ChunkOk(c) && 0 <= j < |c.blocks|
    requires MinorsMatch(c, minors) && Unlinked(minors, minors', c, j)
    ensures MinorsMatch(Without(c, j), minors')
  {
    forall x | 0 <= x < |Without(c, j).blocks| ensures MinorIs(Without(c, j), minors', x) {
      var y := if x < j then x else x + 1;
      assert MinorIs(c, minors, y);
      UnlinkNeighbours(c, j, y);
      UnlinkMatchesAt(c, j, minors, minors', x);
    }
  }

  lemma UnlinkMatchesAt(c: Chunk, j: int, minors: map<int, Minor>, minors': map<int, Minor>, x: int)
    requires 0 <= j < |c.blocks| && 0 <= x < |c.blocks| - 1 && Unlinked(minors, minors', c, j)
    requires var y := if x < j then x else x + 1;
             && MinorIs(c, minors, y)
             && c.blocks[y].addr != c.blocks[j].addr
             && (0 < j && y != j - 1 ==> c.blocks[y].addr != c.blocks[j - 1].addr)
             && (j + 1 < |c.blocks| && y != j + 1 ==> c.blocks[y].addr != c.blocks[j + 1].addr)
    ensures MinorIs(Without(c, j), minors', x)
  {
    RemoveAt(c.blocks, j, x);
    AddrAfterRemove(c, j, x - 1);
    AddrAfterRemove(c, j, x + 1);
  }

  lemma UnlinkNeighbours(c: Chunk, j: int, y: int)
    requires ChunkOk(c) && 0 <= j < |c.blocks| && 0 <= y < |c.blocks| && y != j
    ensures c.blocks[y].addr != c.blocks[j].addr
    ensures 0 < j && y != j - 1 ==> c.blocks[y].addr != c.blocks[j - 1].addr
    ensures j + 1 < |c.blocks| && y != j + 1 ==> c.blocks[y].addr != c.blocks[j + 1].addr
  {
    AddrsDistinct(c, y, j);
    if 0 < j && y != j - 1 { AddrsDistinct(c, y, j - 1); }
    if j + 1 < |c.blocks| && y != j + 1 { AddrsDistinct(c, y, j + 1); }
  }

  lemma AddrsDistinct(c: Chunk, j: int, k: int)
    requires ChunkOk(c) && 0 <= j < |c.blocks| && 0 <= k < |c.blocks| && j != k
    ensures c.blocks[j].addr != c.blocks[k].addr
  {
    if j < k { AddrsDiffer(c, j, k); } else { AddrsDiffer(c, k, j); }
  }

  lemma OtherChunkUnlinked(c: Chunk, j: int, e: Chunk, minors: map<int, Minor>, minors': map<int, Minor>)
    requires ChunkOk(c) && 0 <= j < |c.blocks| && ChunkOk(e) && Apart(c, e)
    requires MinorsMatch(e, minors) && Unlinked(minors, minors', c, j)
    ensures MinorsMatch(e, minors')
  {
    assert BlockOk(c, c.blocks[j]);
    if 0 < j { assert BlockOk(c, c.blocks[j - 1]); }
    if j + 1 < |c.blocks| { assert BlockOk(c, c.blocks[j + 1]); }
    forall x | 0 <= x < |e.blocks| ensures MinorIs(e, minors', x) {
      assert MinorIs(e, minors, x) && BlockOk(e, e.blocks[x]);
    }
  }

  lemma WithoutMarks(c: Chunk, j: int, marks: map<int, int>)
    requires 0 <= j < |c.blocks| && MarksMatch(c, marks)
    ensures MarksMatch(Without(c, j), marks)
  {
    forall x | 0 <= x < |Without(c, j).blocks| ensures MarkIs(Without(c, j), marks, x) {
      RemoveAt(c.blocks, j, x);
      assert MarkIs(c, marks, if x < j then x else x + 1);
    }
  }

  lemma UnlinkCells(l: Layout, i: int, j: int, minors: map<int, Minor>, minors': map<int, Minor>, marks: map<int, int>)
    requires LayoutOk(l) && 0 <= i < |l| && 0 <= j < |l[i].blocks|
    requires CellsMatch(l, minors, marks) && Unlinked(minors, minors', l[i], j)
    ensures CellsMatch(l[i := Without(l[i], j)], minors', marks)
  {
    var m := l[i := Without(l[i], j)];
    forall e | 0 <= e < |m| ensures MinorsMatch(m[e], minors') && MarksMatch(m[e], marks) {
      if e == i {
        UnlinkMatches(l[i], j, minors, minors');
        WithoutMarks(l[i], j, marks);
      } else {
        ApartSym(l, i, e);
        OtherChunkUnlinked(l[i], j, l[e], minors, minors');
      }
    }
  }

  lemma ApartSym(l: Layout, i: int, j: int)
    requires LayoutOk(l) && 0 <= i < |l| && 0 <= j < |l| && i != j
    ensures Apart(l[i], l[j])
  {
    if i < j { assert Apart(l[i], l[j]); } else { assert Apart(l[j], l[i]); }
  }

  lemma UnlinkMajors(l: Layout, i: int, j: int, majors: map<int, Major>, majors': map<int, Major>)
    requires LayoutOk(l) && 0 <= i < |l| && 0 <= j < |l[i].blocks|
    requires MajorsMatch(l, majors) && MajorIs(l, majors, i)
    requires var m := majors[l[i].base];
             majors' == majors[l[i].base := m.(usage := m.usage - (l[i].blocks[j].size + MINOR),
                                               first := if j == 0 then AddrAt(l[i], 1) else m.first)]
    ensures MajorsMatch(l[i := Without(l[i], j)], majors')
  {
    var m := l[i := Without(l[i], j)];
    RemoveUsage(l[i].blocks, j);
    AddrAfterRemove(l[i], j, 0);
    forall e | 0 <= e < |m| ensures MajorIs(m, majors', e) {
      MajorAfterUpdate(l, i, m[i], e);
      assert MajorIs(l, majors, e);
      if e != i { BasesDiffer(l, e, i); }
    }
  }

  // ----- Taking a chunk header out --------------------------------------------------------------

  /** `majors'` is `majors` with the header of chunk `i` gone and its neighbours joined. */
  ghost predicate Dropped(majors: map<int, Major>, majors': map<int, Major>, l: Layout, i: int)
    requires 0 <= i < |l|
  {
    forall a | a in majors && a != l[i].base ::
      && a in majors'
      && majors'[a] == (if 0 < i && a == l[i - 1].base then majors[a].(next := BaseAt(l, i + 1))
                        else if i + 1 < |l| && a == l[i + 1].base then majors[a].(prev := BaseAt(l, i - 1))
                        else majors[a])
  }

  lemma BaseAfterRemove(l: Layout, i: int, x: int)
    requires 0 <= i < |l|
    ensures BaseAt(Remove(l, i), x) == if x < i then BaseAt(l, x) else BaseAt(l, x + 1)
  {
    if 0 <= x < |l| - 1 { RemoveAt(l, i, x); }
  }

  lemma DropMajors(l: Layout, i: int, majors: map<int, Major>, majors': map<int, Major>)
    requires LayoutOk(l) && 0 <= i < |l|
    requires MajorsMatch(l, majors) && Dropped(majors, majors', l, i)
    ensures MajorsMatch(Remove(l, i), majors')
  {
    forall x | 0 <= x < |Remove(l, i)| ensures MajorIs(Remove(l, i), majors', x) {
      var y := if x < i then x else x + 1;
      assert MajorIs(l, majors, y);
      BaseNeighbours(l, i, y);
      DropMajorAt(l, i, majors, majors', x);
    }
  }

  lemma BaseNeighbours(l: Layout, i: int, y: int)
    requires LayoutOk(l) && 0 <= i < |l| && 0 <= y < |l| && y != i
    ensures l[y].base != l[i].base
    ensures 0 < i && y != i - 1 ==> l[y].base != l[i - 1].base
    ensures i + 1 < |l| && y != i + 1 ==> l[y].base != l[i + 1].base
  {
    BasesDiffer(l, y, i);
    if 0 < i && y != i - 1 { BasesDiffer(l, y, i - 1); }
    if i + 1 < |l| && y != i + 1 { BasesDiffer(l, y, i + 1); }
  }

  lemma DropMajorAt(l: Layout, i: int, majors: map<int, Major>, majors': map<int, Major>, x: int)
    requires 0 <= i < |l| && 0 <= x < |l| - 1 && Dropped(majors, majors', l, i)
    requires var y := if x < i then x else x + 1;
             && MajorIs(l, majors, y)
             && l[y].base != l[i].base
             && (0 < i && y != i - 1 ==> l[y].base != l[i - 1].base)
             && (i + 1 < |l| && y != i + 1 ==> l[y].base != l[i + 1].base)
    ensures MajorIs(Remove(l, i), majors', x)
  {
    RemoveAt(l, i, x);
    BaseAfterRemove(l, i, x - 1);
    BaseAfterRemove(l, i, x + 1);
  }

  lemma DropCells(l: Layout, i: int, minors: map<int, Minor>, marks: map<int, int>)
    requires LayoutOk(l) && 0 <= i < |l| && CellsMatch(l, minors, marks)
    ensures var lo, hi := l[i].base, l[i].base + l[i].size;
            CellsMatch(Remove(l, i), Wipe(minors, MINOR, lo, hi), Wipe(marks, 1, lo, hi))
  {
    var m := Remove(l, i);
    var lo, hi := l[i].base, l[i].base + l[i].size;
    var minors', marks' := Wipe(minors, MINOR, lo, hi), Wipe(marks, 1, lo, hi);
    forall x | 0 <= x < |m| ensures MinorsMatch(m[x], minors') && MarksMatch(m[x], marks') {
      RemoveAt(l, i, x);
      var y := if x < i then x else x + 1;
      assert MinorsMatch(l[y], minors) && MarksMatch(l[y], marks);
      ApartSym(l, i, y);
      WipedElsewhere(l[y], lo, hi, minors, marks);
    }
  }

  lemma WipedElsewhere(e: Chunk, lo: int, hi: int, minors: map<int, Minor>, marks: map<int, int>)
    requires ChunkOk(e) && (e.base + e.size <= lo || hi <= e.base)
    requires MinorsMatch(e, minors) && MarksMatch(e, marks)
    ensures MinorsMatch(e, Wipe(minors, MINOR, lo, hi)) && MarksMatch(e, Wipe(marks, 1, lo, hi))
  {
    forall j | 0 <= j < |e.blocks|
      ensures MinorIs(e, Wipe(minors, MINOR, lo, hi), j) && MarkIs(e, Wipe(marks, 1, lo, hi), j)
    {
      assert MinorIs(e, minors, j) && MarkIs(e, marks, j) && BlockOk(e, e.blocks[j]);
      MarkInside(e, j);
    }
  }

  // ----- The whole state ------------------------------------------------------------------------

  /** Every field of the allocator. */
  datatype State = State(majors: map<int, Major>, minors: map<int, Minor>, marks: map<int, int>,
                         memRoot: int, bestBet: int, totalSize: int, inuse: int)

  ghost predicate BetOk(l: Layout, bet: int) {
    bet == 0 || exists i | 0 <= i < |l| :: l[i].base == bet
  }

  ghost predicate LinkedTo(s: State, l: Layout) {
    && LayoutOk(l)
    && MajorsMatch(l, s.majors) && CellsMatch(l, s.minors, s.marks)
    && s.memRoot == BaseAt(l, 0) && BetOk(l, s.bestBet)
    && s.totalSize == Wrapped(TotalSize(l)) && s.inuse == Wrapped(TotalPayload(l))
  }

  lemma BetKept(l: Layout, i: int, d: Chunk, bet: int)
    requires 0 <= i < |l| && d.base == l[i].base && BetOk(l, bet)
    ensures BetOk(l[i := d], bet)
  {
    if bet != 0 {
      var x :| 0 <= x < |l| && l[x].base == bet;
      assert l[i := d][x].base == bet;
    }
  }

  lemma PlacedTotals(s: State, l: Layout, i: int, k: int, req: int)
    requires LinkedTo(s, l)
    requires 0 <= i < |l| && 0 <= k <= |l[i].blocks| && 0 <= req && Gap(l[i], k) >= Need(req)
    ensures LayoutOk(Place(l, i, k, req))
    ensures s.totalSize == Wrapped(TotalSize(Place(l, i, k, req)))
    ensures Wrapped(s.inuse + BodySize(req)) == Wrapped(TotalPayload(Place(l, i, k, req)))
  {
    PlaceKeepsLayout(l, i, k, req);
    AddWrapped(TotalPayload(l), BodySize(req));
  }

  lemma PlacedLinked(s: State, s': State, l: Layout, i: int, k: int, req: int)
    requires LinkedTo(s, l)
    requires 0 <= i < |l| && 0 <= k <= |l[i].blocks| && 0 <= req && Gap(l[i], k) >= Need(req)
    requires MajorIs(l, s.majors, i)
    requires var m := s.majors[l[i].base];
             s'.majors == s.majors[l[i].base := m.(usage := m.usage + BodySize(req) + MINOR,
                                                   first := if k == 0 then GapLo(l[i], 0) else m.first)]
    requires Spliced(s.minors, s'.minors, l[i], k, req) && Marked(s.marks, s'.marks, GapLo(l[i], k), req)
    requires s'.memRoot == s.memRoot && s'.bestBet == s.bestBet && s'.totalSize == s.totalSize
    requires s'.inuse == Wrapped(s.inuse + BodySize(req))
    ensures LinkedTo(s', Place(l, i, k, req))
  {
    PlacedTotals(s, l, i, k, req);
    PlaceMatches(l, i, k, req, s.minors, s'.minors, s.marks, s'.marks);
    PlaceMajors(l, i, k, req, s.majors, s'.majors);
    BetKept(l, i, PlaceIn(l[i], k, req), s.bestBet);
    assert BaseAt(Place(l, i, k, req), 0) == BaseAt(l, 0);
  }

  // ----- A fresh chunk --------------------------------------------------------------------------

  function FreshMajor(req: int, prev: int): Major {
    Major(PagesFor(BodySize(req)), ChunkSize(BodySize(req)), MAJOR, prev, 0, 0)
  }

  lemma BaseAfterAppend(l: Layout, c: Chunk, x: int)
    ensures BaseAt(l + [c], x) == if x == |l| then c.base else BaseAt(l, x)
  {
  }

  lemma FreshMajors(l: Layout, req: int, grant: int, majors: map<int, Major>, majors': map<int, Major>)
    requires LayoutOk(l + [FreshChunk(req, grant)]) && Serveable(req)
    requires MajorsMatch(l, majors)
    requires grant in majors' && majors'[grant] == FreshMajor(req, BaseAt(l, |l| - 1))
    requires forall a | a in majors && a != grant ::
               a in majors' && majors'[a] == if l != [] && a == l[|l| - 1].base then majors[a].(next := grant)
                 else majors[a]
    ensures MajorsMatch(l + [FreshChunk(req, grant)], majors')
  {
    var c := FreshChunk(req, grant);
    var m := l + [c];
    forall e | 0 <= e < |m| ensures MajorIs(m, majors', e) {
      BaseAfterAppend(l, c, e - 1);
      BaseAfterAppend(l, c, e + 1);
      if e < |l| {
        assert MajorIs(l, majors, e);
        BasesDiffer(m, e, |l|);
        if e < |l| - 1 { BasesDiffer(m, e, |l| - 1); }
      } else {
        FreshChunkFitsIff(req);
      }
    }
  }

  lemma FreshLinked(s: State, s': State, l: Layout, req: int, grant: int)
    requires LinkedTo(s, l) && Serveable(req) && grant != 0
    requires GrantOk(l, grant, ChunkSize(BodySize(req)))
    requires grant in s'.majors && s'.majors[grant] == FreshMajor(req, BaseAt(l, |l| - 1))
    requires forall a | a in s.majors && a != grant ::
               a in s'.majors && s'.majors[a] == if l != [] && a == l[|l| - 1].base then s.majors[a].(next := grant)
                 else s.majors[a]
    requires s'.minors == s.minors && s'.marks == s.marks && s'.bestBet == s.bestBet && s'.inuse == s.inuse
    requires s'.memRoot == if l == [] then grant else s.memRoot
    requires s'.totalSize == Wrapped(s.totalSize + ChunkSize(BodySize(req)))
    ensures LinkedTo(s', l + [FreshChunk(req, grant)])
  {
    var c := FreshChunk(req, grant);
    FreshKeepsLayout(l, req, grant);
    FreshMajors(l, req, grant, s.majors, s'.majors);
    AddWrapped(TotalSize(l), ChunkSize(BodySize(req)));
    assert BetOk(l + [c], s.bestBet) by {
      if s.bestBet != 0 {
        var x :| 0 <= x < |l| && l[x].base == s.bestBet;
        assert (l + [c])[x].base == s.bestBet;
      }
    }
  }

  // ----- Full chunks ----------------------------------------------------------------------------

  /** A chunk with too few free bytes has no gap with room. */
  lemma NoRoomWhenFull(c: Chunk, need: int)
    requires ChunkOk(c) && FreeBytes(c) < need
    ensures !HasRoom(c, need)
  {
    if HasRoom(c, need) { GapWithinFree(c, FirstGap(c, 0, need)); }
  }

  lemma EmptyChunkHasRoom(c: Chunk, need: int)
    requires c.blocks == [] && FreeBytes(c) >= need
    ensures HasRoom(c, need) && FirstGap(c, 0, need) == 0
  {
  }

  lemma UserPtrPositive(c: Chunk, k: int, req: int)
    requires ChunkOk(c) && 0 <= k <= |c.blocks|
    ensures UserPtr(NewBlock(c, k, req)) > 0
  {
    GapInside(c, k);
    UnalignUndoesAlign(GapLo(c, k) + MINOR);
  }

  // ----- Releasing ------------------------------------------------------------------------------

  lemma WithoutKeepsLayout(l: Layout, i: int, j: int)
    requires LayoutOk(l) && 0 <= i < |l| && 0 <= j < |l[i].blocks|
    ensures LayoutOk(l[i := Without(l[i], j)])
    ensures TotalPayload(l[i := Without(l[i], j)]) == TotalPayload(l) - l[i].blocks[j].size
    ensures TotalSize(l[i := Without(l[i], j)]) == TotalSize(l)
  {
    var m := l[i := Without(l[i], j)];
    RemoveKeepsChunk(l[i], j);
    RemoveUsage(l[i].blocks, j);
    forall a, b | 0 <= a < b < |m| ensures Apart(m[a], m[b]) {
      assert Apart(l[a], l[b]);
    }
    TotalsAt(l, i);
    TotalsAt(m, i);
    assert m[..i] == l[..i] && m[i + 1..] == l[i + 1..];
  }

  lemma UnlinkedTotals(s: State, l: Layout, i: int, j: int)
    requires LinkedTo(s, l) && 0 <= i < |l| && 0 <= j < |l[i].blocks|
    ensures var m := l[i := Without(l[i], j)];
      && LayoutOk(m) && s.totalSize == Wrapped(TotalSize(m))
      && Wrapped(s.inuse - l[i].blocks[j].size) == Wrapped(TotalPayload(m))
  {
    WithoutKeepsLayout(l, i, j);
    AddWrapped(TotalPayload(l), -l[i].blocks[j].size);
  }

  lemma UnlinkedLinked(s: State, s': State, l: Layout, i: int, j: int)
    requires LinkedTo(s, l) && 0 <= i < |l| && 0 <= j < |l[i].blocks|
    requires MajorIs(l, s.majors, i)
    requires var m := s.majors[l[i].base];
             s'.majors == s.majors[l[i].base := m.(usage := m.usage - (l[i].blocks[j].size + MINOR),
                                                   first := if j == 0 then AddrAt(l[i], 1) else m.first)]
    requires Unlinked(s.minors, s'.minors, l[i], j) && s'.marks == s.marks
    requires s'.memRoot == s.memRoot && s'.bestBet == s.bestBet && s'.totalSize == s.totalSize
    requires s'.inuse == Wrapped(s.inuse - l[i].blocks[j].size)
    ensures LinkedTo(s', l[i := Without(l[i], j)])
  {
    UnlinkedTotals(s, l, i, j);
    UnlinkCells(l, i, j, s.minors, s'.minors, s.marks);
    UnlinkMajors(l, i, j, s.majors, s'.majors);
    BetKept(l, i, Without(l[i], j), s.bestBet);
  }

  lemma RemoveKeepsLayout(l: Layout, i: int)
    requires LayoutOk(l) && 0 <= i < |l| && l[i].blocks == []
    ensures LayoutOk(Remove(l, i))
    ensures TotalPayload(Remove(l, i)) == TotalPayload(l)
    ensures TotalSize(Remove(l, i)) == TotalSize(l) - l[i].size
  {
    var m := Remove(l, i);
    forall a | 0 <= a < |m| ensures ChunkOk(m[a]) {
      RemoveAt(l, i, a);
    }
    forall a, b | 0 <= a < b < |m| ensures Apart(m[a], m[b]) {
      RemoveAt(l, i, a);
      RemoveAt(l, i, b);
    }
    TotalsAt(l, i);
    TotalsConcat(l[..i], l[i + 1..]);
  }

  lemma BetAfterDrop(l: Layout, i: int, bet: int)
    requires LayoutOk(l) && 0 <= i < |l| && BetOk(l, bet)
    ensures BetOk(Remove(l, i), if bet == l[i].base then 0 else bet)
  {
    if bet != 0 && bet != l[i].base {
      var x :| 0 <= x < |l| && l[x].base == bet;
      var y := if x < i then x else x - 1;
      RemoveAt(l, i, y);
      assert Remove(l, i)[y].base == bet;
    }
  }

  lemma DroppedLinked(s: State, s': State, l: Layout, i: int)
    requires LinkedTo(s, l) && 0 <= i < |l| && l[i].blocks == []
    requires Dropped(s.majors, s'.majors, l, i)
    requires s'.minors == Wipe(s.minors, MINOR, l[i].base, l[i].base + l[i].size)
    requires s'.marks == Wipe(s.marks, 1, l[i].base, l[i].base + l[i].size)
    requires s'.memRoot == (if s.memRoot == l[i].base then BaseAt(l, i + 1) else s.memRoot)
    requires s'.bestBet == (if s.bestBet == l[i].base then 0 else s.bestBet)
    requires s'.totalSize == Wrapped(s.totalSize - l[i].size) && s'.inuse == s.inuse
    ensures LinkedTo(s', Remove(l, i))
  {
    RemoveKeepsLayout(l, i);
    DropMajors(l, i, s.majors, s'.majors);
    DropCells(l, i, s.minors, s.marks);
    BetAfterDrop(l, i, s.bestBet);
    AddWrapped(TotalSize(l), -l[i].size);
    BaseAfterRemove(l, i, 0);
    if i > 0 { BasesDiffer(l, 0, i); }
  }

  /** Joining the neighbours of block `j`, as the code does it. */
  lemma UnlinkSplice(minors: map<int, Minor>, c: Chunk, j: int)
    requires ChunkOk(c) && 0 <= j < |c.blocks| && MinorsMatch(c, minors)
    ensures c.blocks[j].addr in minors
    ensures var h, prev, next := c.blocks[j].addr, AddrAt(c, j - 1), AddrAt(c, j + 1);
            var m0 := minors[h := minors[h].(magic := Dead)];
            && (next != 0 ==> next in m0)
            && var m1 := if next != 0 then m0[next := m0[next].(prev := prev)] else m0;
            && (prev != 0 ==> prev in m1)
            && var m2 := if prev != 0 then m1[prev := m1[prev].(next := next)] else m1;
            Unlinked(minors, m2, c, j)
  {
    assert MinorIs(c, minors, j);
    if 0 < j { assert MinorIs(c, minors, j - 1); AddrsDistinct(c, j - 1, j); assert BlockOk(c, c.blocks[j - 1]); }
    if j + 1 < |c.blocks| {
      assert MinorIs(c, minors, j + 1);
      AddrsDistinct(c, j, j + 1);
      assert BlockOk(c, c.blocks[j + 1]);
    }
    if 0 < j && j + 1 < |c.blocks| { AddrsDistinct(c, j - 1, j + 1); }
  }

  /** Joining the neighbours of chunk `i`, as the code does it. */
  lemma DropSplice(majors: map<int, Major>, l: Layout, i: int)
    requires LayoutOk(l) && 0 <= i < |l| && MajorsMatch(l, majors)
    ensures l[i].base in majors
    ensures var h, prev, next := l[i].base, BaseAt(l, i - 1), BaseAt(l, i + 1);
            && (prev != 0 ==> prev in majors)
            && var m1 := if prev != 0 then majors[prev := majors[prev].(next := next)] else majors;
            && (next != 0 ==> next in m1)
            && var m2 := if next != 0 then m1[next := m1[next].(prev := prev)] else m1;
            Dropped(majors, m2 - {h}, l, i)
  {
    assert MajorIs(l, majors, i);
    if 0 < i { assert MajorIs(l, majors, i - 1); BasesDiffer(l, i - 1, i); assert ChunkOk(l[i - 1]); }
    if i + 1 < |l| { assert MajorIs(l, majors, i + 1); BasesDiffer(l, i, i + 1); assert ChunkOk(l[i + 1]); }
    if 0 < i && i + 1 < |l| { BasesDiffer(l, i - 1, i + 1); }
  }
}
