/**
  Whether the hardware would let the manager write the tables it edits. A table of another root is reached
  through slot 509, and that slot is opened with the properties of the page being mapped.
 */
module SlotRights {
  import opened Common
  import opened PagingBits
  import opened PageTables
  import opened PageRights
  import opened RecursiveSlots

  /** Rights along a walk in two parts. */
  lemma {:induction false} AllowedSplit(m: Memory, r: int, a: seq<int>, b: seq<int>, w: Right)
    requires TableAt(m, r, a).Some?
    ensures Allowed(m, r, a + b, w) <==> Allowed(m, r, a, w) && Allowed(m, TableAt(m, r, a).value, b, w)
    decreases |b|
  {
    if b == [] {
      assert a + b == a;
    } else {
      var n := |b| - 1;
      AllowedSplit(m, r, a, b[..n], w);
      WalkSplit(m, r, a, b[..n]);
      assert (a + b)[..|a + b| - 1] == a + b[..n];
    }
  }

  lemma OneStep(m: Memory, r: int, i: int, p: seq<int>, w: Right)
    requires m(Cell(r, i)).present
    ensures Allowed(m, r, [i] + p, w) <==> Grants(m(Cell(r, i)), w) && Allowed(m, m(Cell(r, i)).frame, p, w)
  {
    assert [i][..0] == [];
    assert TableAt(m, r, [i]) == Some(m(Cell(r, i)).frame);
    AllowedSplit(m, r, [i], p, w);
  }

  /** The active root maps itself, writable, at 510. */
  ghost predicate SelfMapped(m: Memory, cr3: int) {
    m(Cell(cr3, ACTIVE)).present && m(Cell(cr3, ACTIVE)).frame == cr3 && m(Cell(cr3, ACTIVE)).prop.writable
  }

  lemma ThroughActive(m: Memory, cr3: int, p: seq<int>)
    requires SelfMapped(m, cr3)
    ensures Allowed(m, cr3, [ACTIVE] + p, Writing) <==> Allowed(m, cr3, p, Writing)
  {
    OneStep(m, cr3, ACTIVE, p, Writing);
  }

  /** A recursive address that goes through `k` active slots and then through `link` can be written exactly if
      the link can and the rest of the walk can, from the root behind it. */
  lemma ThroughLinkAllowed(m: Memory, cr3: int, link: int, root: int, q: seq<int>)
    requires SelfMapped(m, cr3) && m(Cell(cr3, link)).present && m(Cell(cr3, link)).frame == root && |q| == 4
    ensures var w := m(Cell(cr3, link)).prop.writable;
      && (Allowed(m, cr3, [ACTIVE, ACTIVE, ACTIVE, link], Writing) <==> w)
      && (Allowed(m, cr3, [ACTIVE, ACTIVE, link, q[0]], Writing) <==> w && Allowed(m, root, q[..1], Writing))
      && (Allowed(m, cr3, [ACTIVE, link, q[0], q[1]], Writing) <==> w && Allowed(m, root, q[..2], Writing))
      && (Allowed(m, cr3, [link, q[0], q[1], q[2]], Writing) <==> w && Allowed(m, root, q[..3], Writing))
  {
    OneStep(m, cr3, link, [], Writing);
    OneStep(m, cr3, link, q[..1], Writing);
    OneStep(m, cr3, link, q[..2], Writing);
    OneStep(m, cr3, link, q[..3], Writing);
    assert [link] + q[..3] == [link, q[0], q[1], q[2]];
    ThroughActive(m, cr3, [link] + q[..2]);
    assert [ACTIVE] + ([link] + q[..2]) == [ACTIVE, link, q[0], q[1]];
    ThroughActive(m, cr3, [link] + q[..1]);
    ThroughActive(m, cr3, [ACTIVE] + ([link] + q[..1]));
    assert [ACTIVE] + ([ACTIVE] + ([link] + q[..1])) == [ACTIVE, ACTIVE, link, q[0]];
    ThroughActive(m, cr3, [link] + []);
    ThroughActive(m, cr3, [ACTIVE] + ([link] + []));
    ThroughActive(m, cr3, [ACTIVE] + ([ACTIVE] + ([link] + [])));
    assert [ACTIVE] + ([ACTIVE] + ([ACTIVE] + ([link] + []))) == [ACTIVE, ACTIVE, ACTIVE, link];
  }

  /** Where every table is writable, a walk to a table allows writing exactly if the table is there. */
  lemma {:induction false} WalkAllows(s: Vm, r: int, p: seq<int>)
    requires WF(s.mem, s.own) && TablesWritable(s) && IsRoot(s.own, r) && UserPath(p) && |p| <= 3
    ensures Allowed(s.mem, r, p, Writing) <==> TableAt(s.mem, r, p).Some?
    decreases |p|
  {
    if p != [] {
      var n := |p| - 1;
      UserPrefix(p, n);
      WalkAllows(s, r, p[..n]);
      if TableAt(s.mem, r, p[..n]).Some? {
        WalkOwned(s.mem, s.own, r, p[..n]);
        assert p[..n] + [p[n]] == p;
        assert OpenAt(s, TableAt(s.mem, r, p[..n]).value, p[n]);
      }
    }
  }

  /** An edit of page `q` of `root` through the slot `link`, in a state whose tables are writable. */
  ghost predicate Editing(s: Vm, cr3: int, link: int, root: int, q: seq<int>) {
    && Sound(s) && IsRoot(s.own, root) && IsPage(q) && Linked(s.mem, cr3, link, root) && IsRoot(s.own, cr3)
    && TablesWritable(s) && SelfMapped(s.mem, cr3)
  }

  ghost predicate SlotWritable(s: Vm, cr3: int, link: int) { s.mem(Cell(cr3, link)).prop.writable }

  /** Main result: at each of the four recursive addresses, written as indices, the hardware allows writing
      exactly if the table is there and the slot is writable. */
  lemma WritableIff(s: Vm, cr3: int, link: int, root: int, q: seq<int>)
    requires Editing(s, cr3, link, root, q)
    ensures var w := SlotWritable(s, cr3, link);
      && (Allowed(s.mem, cr3, [ACTIVE, ACTIVE, ACTIVE, link], Writing) <==> w)
      && (Allowed(s.mem, cr3, [ACTIVE, ACTIVE, link, q[0]], Writing) <==> w && TableAt(s.mem, root, q[..1]).Some?)
      && (Allowed(s.mem, cr3, [ACTIVE, link, q[0], q[1]], Writing) <==> w && TableAt(s.mem, root, q[..2]).Some?)
      && (Allowed(s.mem, cr3, [link, q[0], q[1], q[2]], Writing) <==> w && TableAt(s.mem, root, q[..3]).Some?)
  {
    ThroughLinkAllowed(s.mem, cr3, link, root, q);
    UserPrefix(q, 1);
    UserPrefix(q, 2);
    UserPrefix(q, 3);
    WalkAllows(s, root, q[..1]);
    WalkAllows(s, root, q[..2]);
    WalkAllows(s, root, q[..3]);
  }

  lemma StillEditing(s: Vm, s': Vm, cr3: int, link: int, root: int, q: seq<int>)
    requires Editing(s, cr3, link, root, q) && Sound(s') && TablesWritable(s') && Spares(s, s') && Inside(s, s')
    ensures Editing(s', cr3, link, root, q) && SlotWritable(s', cr3, link) == SlotWritable(s, cr3, link)
  {
  }

  // ----- The writes of a call, each in the state it happens in -------------------------------------

  lemma PdptWrite(s: Vm, cr3: int, link: int, root: int, q: seq<int>, prop: PageProperties, s1: Vm)
    requires Editing(s, cr3, link, root, q) && Callable(s, root, q) && prop.writable && s1 == Nest1(s, root, q, prop)
    ensures Editing(s1, cr3, link, root, q) && SlotWritable(s1, cr3, link) == SlotWritable(s, cr3, link)
    ensures Allowed(s1.mem, cr3, [ACTIVE, ACTIVE, link, q[0]], Writing) <==> SlotWritable(s, cr3, link)
  {
    Down1(s, cr3, link, root, q, prop, s1);
    CreateKeepsWritable(s, root, q[0], prop);
    StillEditing(s, s1, cr3, link, root, q);
    WritableIff(s1, cr3, link, root, q);
    RecursiveWalk(s1.mem, cr3, link, root, q);
    assert q[..1] == [q[0]];
  }

  lemma PdWrite(s1: Vm, cr3: int, link: int, root: int, q: seq<int>, prop: PageProperties, pdpt: int, s2: Vm)
    requires Editing(s1, cr3, link, root, q) && Callable(s1, root, q) && prop.writable
    requires s1.mem(Cell(root, q[0])).present && pdpt == Child(s1, root, q[0]) && pdpt in s1.own
    requires s1.own[pdpt] == Place(root, [q[0]]) && s2 == GetOrCreate(s1, pdpt, q[1], prop)
    ensures Editing(s2, cr3, link, root, q) && SlotWritable(s2, cr3, link) == SlotWritable(s1, cr3, link)
    ensures Allowed(s2.mem, cr3, [ACTIVE, link, q[0], q[1]], Writing) <==> SlotWritable(s1, cr3, link)
  {
    Down2(s1, cr3, link, root, q, prop, pdpt, s2);
    CreateKeepsWritable(s1, pdpt, q[1], prop);
    StillEditing(s1, s2, cr3, link, root, q);
    WritableIff(s2, cr3, link, root, q);
    RecursiveWalk(s2.mem, cr3, link, root, q);
    assert q[..2] == [q[0], q[1]];
  }

  lemma PtWrite(s2: Vm, cr3: int, link: int, root: int, q: seq<int>, prop: PageProperties, pdpt: int, pd: int, s3: Vm)
    requires Editing(s2, cr3, link, root, q) && Callable(s2, root, q) && prop.writable
    requires s2.mem(Cell(root, q[0])).present && pdpt == Child(s2, root, q[0]) && pdpt in s2.own
    requires s2.own[pdpt] == Place(root, [q[0]])
    requires s2.mem(Cell(pdpt, q[1])).present && pd == Child(s2, pdpt, q[1]) && pd in s2.own
    requires s2.own[pd] == Place(root, [q[0], q[1]]) && s3 == GetOrCreate(s2, pd, q[2], prop)
    ensures Editing(s3, cr3, link, root, q) && SlotWritable(s3, cr3, link) == SlotWritable(s2, cr3, link)
    ensures Allowed(s3.mem, cr3, [link, q[0], q[1], q[2]], Writing) <==> SlotWritable(s2, cr3, link)
  {
    Down3(s2, cr3, link, root, q, prop, pdpt, pd, s3);
    CreateKeepsWritable(s2, pd, q[2], prop);
    StillEditing(s2, s3, cr3, link, root, q);
    WritableIff(s3, cr3, link, root, q);
    RecursiveWalk(s3.mem, cr3, link, root, q);
    assert q[..3] == [q[0], q[1], q[2]];
  }

  /** The writes of a nesting to the root's entry and to those of the two tables below, and the write of the
      page's own entry that follows, are each allowed exactly if `w`. */
  ghost predicate NestWrites(s: Vm, cr3: int, link: int, root: int, q: seq<int>, prop: PageProperties, w: bool)
    requires |q| == 4
  {
    && (Allowed(s.mem, cr3, [ACTIVE, ACTIVE, ACTIVE, link], Writing) <==> w)
    && (Allowed(Nest1(s, root, q, prop).mem, cr3, [ACTIVE, ACTIVE, link, q[0]], Writing) <==> w)
    && (Allowed(Nest2(s, root, q, prop).mem, cr3, [ACTIVE, link, q[0], q[1]], Writing) <==> w)
    && (Allowed(Nest(s, root, q, prop).mem, cr3, [link, q[0], q[1], q[2]], Writing) <==> w)
  }

  lemma NestWritesIff(s: Vm, cr3: int, link: int, root: int, q: seq<int>, prop: PageProperties)
    requires Editing(s, cr3, link, root, q) && Callable(s, root, q) && prop.writable
    ensures NestWrites(s, cr3, link, root, q, prop, SlotWritable(s, cr3, link))
    ensures Editing(Nest(s, root, q, prop), cr3, link, root, q)
    ensures SlotWritable(Nest(s, root, q, prop), cr3, link) == SlotWritable(s, cr3, link)
  {
    var s1, s2, s3 := Nest1(s, root, q, prop), Nest2(s, root, q, prop), Nest(s, root, q, prop);
    WritableIff(s, cr3, link, root, q);
    PdptWrite(s, cr3, link, root, q, prop, s1);
    Nest1Keeps(s, root, q, prop);
    var pdpt := Child(s1, root, q[0]);
    PdWrite(s1, cr3, link, root, q, prop, pdpt, s2);
    Nest2Keeps(s1, root, q, prop);
    PtWrite(s2, cr3, link, root, q, prop, pdpt, Child(s2, pdpt, q[1]), s3);
  }

  /** The writes of a pruning, to the entry of each table that may be freed, are allowed. */
  ghost predicate PruneWrites(s: Vm, cr3: int, link: int, root: int, q: seq<int>, pdpt: int, pd: int)
    requires |q| == 4
  {
    && Allowed(s.mem, cr3, [ACTIVE, link, q[0], q[1]], Writing)
    && Allowed(Prune(s, pd, q[2]).mem, cr3, [ACTIVE, ACTIVE, link, q[0]], Writing)
    && Allowed(Prune(Prune(s, pd, q[2]), pdpt, q[1]).mem, cr3, [ACTIVE, ACTIVE, ACTIVE, link], Writing)
  }

  lemma PruneIsAllowed(s4: Vm, cr3: int, link: int, root: int, q: seq<int>, pdpt: int, pd: int, pt: int)
    requires Editing(s4, cr3, link, root, q) && Chain(s4, root, q, pdpt, pd, pt) && SlotWritable(s4, cr3, link)
    ensures PruneWrites(s4, cr3, link, root, q, pdpt, pd)
  {
    var s5 := Prune(s4, pd, q[2]);
    var s6 := Prune(s5, pdpt, q[1]);
    assert q[..1] == [q[0]] && q[..2] == [q[0], q[1]];
    ChainSeen(s4, cr3, link, root, q, pdpt, pd, pt);
    WritableIff(s4, cr3, link, root, q);
    RecursiveWalk(s4.mem, cr3, link, root, q);
    Up1(s4, cr3, link, root, q, pdpt, pd, pt, s5);
    PruneKeepsWritable(s4, pd, q[2]);
    StillEditing(s4, s5, cr3, link, root, q);
    WritableIff(s5, cr3, link, root, q);
    RecursiveWalk(s5.mem, cr3, link, root, q);
    Up2(s5, cr3, link, root, q, pdpt, pd, s6);
    PruneKeepsWritable(s5, pdpt, q[1]);
    StillEditing(s5, s6, cr3, link, root, q);
    WritableIff(s6, cr3, link, root, q);
  }

  lemma ClearedEditing(s: Vm, cr3: int, link: int, root: int, q: seq<int>, s3: Vm, s4: Vm)
    requires Editing(s3, cr3, link, root, q) && Callable(s, root, q) && s3 == Nest(s, root, q, PageKernelWrite)
    requires s4 == Cleared(s, root, q)
    ensures Editing(s4, cr3, link, root, q) && SlotWritable(s4, cr3, link) == SlotWritable(s3, cr3, link)
  {
    NestKeeps(s, root, q, PageKernelWrite);
    ClearedKeeps(s, root, q);
    var pt := Leaf(s3, root, q);
    var e := s3.mem(Cell(pt, q[3])).(present := false);
    WriteKeepsWritable(s3, pt, q[3], e);
  }

  // ----- With the addresses the kernel computes ----------------------------------------------------

  /** The hardware allows writing at a virtual address. */
  ghost predicate Writable(m: Memory, cr3: int, virt: bv64) { Allowed(m, cr3, PathOf(virt), Writing) }

  /** The four writes of mapping at `virt` through the link `table`, each at its address and in the state it
      happens in, are allowed exactly if `w`. */
  ghost predicate EachWrite(s: Vm, cr3: int, table: bv64, root: int, virt: bv64, prop: PageProperties, w: bool) {
    var q := PathOf(virt);
    && (Writable(s.mem, cr3, RootAddress(table)) <==> w)
    && (Writable(Nest1(s, root, q, prop).mem, cr3, PdptAddress(table, virt)) <==> w)
    && (Writable(Nest2(s, root, q, prop).mem, cr3, PdAddress(table, virt)) <==> w)
    && (Writable(Nest(s, root, q, prop).mem, cr3, PtAddress(table, virt)) <==> w)
  }

  lemma EachWriteIff(s: Vm, cr3: int, table: bv64, root: int, virt: bv64, prop: PageProperties)
    requires IsLink(table) && Editing(s, cr3, LinkOf(table), root, PathOf(virt)) && Callable(s, root, PathOf(virt))
    requires prop.writable
    ensures EachWrite(s, cr3, table, root, virt, prop, SlotWritable(s, cr3, LinkOf(table)))
  {
    NestWritesIff(s, cr3, LinkOf(table), root, PathOf(virt), prop);
    PathOfRoot(table);
    PathOfPdpt(table, virt);
    PathOfPd(table, virt);
    PathOfPt(table, virt);
  }

  /** The writes that follow when the page is unmapped and its tables are freed are allowed. */
  ghost predicate FreeingWrites(s: Vm, cr3: int, table: bv64, root: int, virt: bv64) {
    var q, s4 := PathOf(virt), Cleared(s, root, PathOf(virt));
    var pdpt := Child(s4, root, q[0]);
    var pd := Child(s4, pdpt, q[1]);
    && Writable(s4.mem, cr3, PdAddress(table, virt))
    && Writable(Prune(s4, pd, q[2]).mem, cr3, PdptAddress(table, virt))
    && Writable(Prune(Prune(s4, pd, q[2]), pdpt, q[1]).mem, cr3, RootAddress(table))
  }

  lemma FreeingIsAllowed(s: Vm, cr3: int, table: bv64, root: int, virt: bv64)
    requires IsLink(table) && Editing(s, cr3, LinkOf(table), root, PathOf(virt)) && Callable(s, root, PathOf(virt))
    requires SlotWritable(s, cr3, LinkOf(table))
    ensures FreeingWrites(s, cr3, table, root, virt)
  {
    var q, link, s4 := PathOf(virt), LinkOf(table), Cleared(s, root, PathOf(virt));
    NestWritesIff(s, cr3, link, root, q, PageKernelWrite);
    ClearedEditing(s, cr3, link, root, q, Nest(s, root, q, PageKernelWrite), s4);
    ClearedKeeps(s, root, q);
    var pdpt := Child(s4, root, q[0]);
    PruneIsAllowed(s4, cr3, link, root, q, pdpt, Child(s4, pdpt, q[1]), Leaf(s4, root, q));
    PathOfRoot(table);
    PathOfPdpt(table, virt);
    PathOfPd(table, virt);
  }

  lemma SlotEditing(s: Vm, cr3: int, root: int, q: seq<int>, prop: PageProperties, s0: Vm)
    requires Callable(s, root, q) && IsRoot(s.own, cr3) && TablesWritable(s) && SelfMapped(s.mem, cr3)
    requires s0 == WithSlot(s, cr3, Pte(true, root, prop))
    ensures Callable(s0, root, q) && Editing(s0, cr3, OTHER, root, q)
    ensures SlotWritable(s0, cr3, OTHER) == prop.writable
  {
    SlotOpens(s, cr3, root, q, prop);
    forall f, i ensures OpenAt(s0, f, i) {
      assert OpenAt(s, f, i);
      LowSlot(if f in s.own then s.own[f].prefix else [], i);
    }
  }

  /** Main result: mapping a page into another root, whose tables are reached through slot 509, opened with the
      properties of the page: each write of the call, from the root's entry down, is allowed by the hardware if
      and only if the page is writable, whichever tables are there. */
  lemma MapEditIff(s: Vm, cr3: int, root: int, virt: bv64, prop: PageProperties)
    requires Callable(s, root, PathOf(virt)) && IsRoot(s.own, cr3) && TablesWritable(s) && SelfMapped(s.mem, cr3)
    ensures var s0 := WithSlot(s, cr3, Pte(true, root, prop));
      EachWrite(s0, cr3, RecurseLink(RECURSE_OTHER), root, virt, Upper(prop), prop.writable)
  {
    var s0 := WithSlot(s, cr3, Pte(true, root, prop));
    SlotEditing(s, cr3, root, PathOf(virt), prop, s0);
    LinkParts(RecurseLink(RECURSE_OTHER), RECURSE_OTHER);
    EachWriteIff(s0, cr3, RecurseLink(RECURSE_OTHER), root, virt, Upper(prop));
  }

  /** Main result: unmapping, which opens the slot for kernel writing, is allowed every write, those that free
      tables included, whichever tables are there. */
  lemma UnmapEditAllowed(s: Vm, cr3: int, root: int, virt: bv64)
    requires Callable(s, root, PathOf(virt)) && IsRoot(s.own, cr3) && TablesWritable(s) && SelfMapped(s.mem, cr3)
    ensures var s0, link := WithSlot(s, cr3, Pte(true, root, PageKernelWrite)), RecurseLink(RECURSE_OTHER);
      EachWrite(s0, cr3, link, root, virt, PageKernelWrite, true) && FreeingWrites(s0, cr3, link, root, virt)
  {
    var s0, link := WithSlot(s, cr3, Pte(true, root, PageKernelWrite)), RecurseLink(RECURSE_OTHER);
    SlotEditing(s, cr3, root, PathOf(virt), PageKernelWrite, s0);
    LinkParts(link, RECURSE_OTHER);
    EachWriteIff(s0, cr3, link, root, virt, PageKernelWrite);
    FreeingIsAllowed(s0, cr3, link, root, virt);
  }

  /** Main result: in the active root every write of either call is allowed, whatever the page. */
  lemma ActiveEditAllowed(s: Vm, cr3: int, virt: bv64, prop: PageProperties)
    requires Callable(s, cr3, PathOf(virt)) && TablesWritable(s) && SelfMapped(s.mem, cr3)
    ensures var link := RecurseLink(RECURSE_ACTIVE);
      EachWrite(s, cr3, link, cr3, virt, Upper(prop), true) && FreeingWrites(s, cr3, link, cr3, virt)
  {
    var link := RecurseLink(RECURSE_ACTIVE);
    LinkParts(link, RECURSE_ACTIVE);
    EachWriteIff(s, cr3, link, cr3, virt, Upper(prop));
    FreeingIsAllowed(s, cr3, link, cr3, virt);
  }
}
