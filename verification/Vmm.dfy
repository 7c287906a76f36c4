/**
  The virtual memory manager: page tables edited through the active root's recursive slots. Each method is
  proved against `PageTables`, where the same work is done over plain frames; the rights it leaves are those of
  `PageProps`, and `refused` records whether the hardware would have stopped one of its writes.
 */
module Vmm {
  import opened Common
  import opened PagingBits
  import opened PageTables
  import opened PageRights
  import opened PageProps
  import opened RecursiveSlots
  import opened SlotRights

  lemma Steps(m: Memory, r: int, q: seq<int>)
    requires |q| == 4
    ensures TableAt(m, r, q[..3]).Some? ==>
      TableAt(m, r, q[..3]).value == m(Cell(m(Cell(m(Cell(r, q[0])).frame, q[1])).frame, q[2])).frame
  {
    assert q[..3][..2] == q[..2] && q[..2][..1] == q[..1] && q[..1][..0] == [];
    assert TableAt(m, r, q[..1]) == Next(m, r, q[0]);
    assert TableAt(m, r, q[..2]).Some? ==> TableAt(m, r, q[..1]).Some?;
  }

  /** What is given back between two states is exactly the tables that are gone. */
  ghost predicate GivesBack(s: Vm, s': Vm, freed: seq<int>, freed': seq<int>) {
    && freed <= freed' && s'.own.Keys <= s.own.Keys
    && forall f :: f in freed'[|freed|..] <==> f in s.own && f !in s'.own
  }

  /** Every table of `own` is still one in `own'` or was given back since, and what was given back is none. */
  ghost predicate Accounted(own: Owners, own': Owners, freed: seq<int>, freed': seq<int>) {
    && freed <= freed' && (forall f | f in freed'[|freed|..] :: f !in own')
    && (forall f | f in own :: f in own' || f in freed'[|freed|..])
  }

  lemma GivenBackAccounts(own: Owners, s: Vm, s': Vm, freed: seq<int>, freed': seq<int>)
    requires GivesBack(s, s', freed, freed') && own.Keys <= s.own.Keys
    ensures Accounted(own, s'.own, freed, freed')
  {
  }

  lemma PruneGivesBack(s: Vm, f: int, i: int, freed: seq<int>, freed': seq<int>)
    requires Child(s, f, i) in s.own
    requires freed' == freed + if IsEmpty(s.mem, Child(s, f, i)) then [Child(s, f, i)] else []
    ensures GivesBack(s, Prune(s, f, i), freed, freed')
  {
  }

  lemma GivesBackTwice(s: Vm, s': Vm, s'': Vm, freed: seq<int>, freed': seq<int>, freed'': seq<int>)
    requires GivesBack(s, s', freed, freed') && GivesBack(s', s'', freed', freed'')
    ensures GivesBack(s, s'', freed, freed'')
  {
    assert freed''[|freed|..] == freed'[|freed|..] + freed''[|freed'|..];
  }

  /** Writing the upper-half slot is invisible to the properties of user entries. */
  lemma SlotProps(s: Vm, cr3: int, e: Pte, r: int, p: seq<int>)
    requires Sound(s) && IsRoot(s.own, cr3) && IsPlace(s.own, r, p)
    ensures PropAt(WithSlot(s, cr3, e).mem, r, p) == PropAt(s.mem, r, p)
  {
    var n := |p| - 1;
    UserPrefix(p, n);
    SlotWalk(s, cr3, OTHER, e, r, p[..n]);
    if TableAt(s.mem, r, p[..n]).Some? { WalkOwned(s.mem, s.own, r, p[..n]); }
  }

  lemma SlotMapsProps(s: Vm, s0: Vm, s1: Vm, s2: Vm, cr3: int, e: Pte, r: int, q: seq<int>, prop: PageProperties)
    requires Sound(s) && IsRoot(s.own, cr3) && s0 == WithSlot(s, cr3, e)
    requires Sound(s1) && s2 == WithSlot(s1, cr3, EMPTY) && forall x | IsRoot(s.own, x) :: IsRoot(s1.own, x)
    requires MapsProps(s0.mem, s0.own, r, q, prop, s1.mem)
    ensures MapsProps(s.mem, s.own, r, q, prop, s2.mem)
  {
    forall r', p' | IsPlace(s.own, r', p')
      ensures PropAt(s0.mem, r', p') == PropAt(s.mem, r', p') && PropAt(s2.mem, r', p') == PropAt(s1.mem, r', p')
    {
      SlotProps(s, cr3, e, r', p');
      assert IsPlace(s1.own, r', p');
      SlotProps(s1, cr3, EMPTY, r', p');
    }
  }

  lemma SlotUnmapsProps(s: Vm, s0: Vm, s1: Vm, s2: Vm, cr3: int, e: Pte, r: int, q: seq<int>)
    requires Sound(s) && IsRoot(s.own, cr3) && s0 == WithSlot(s, cr3, e)
    requires Sound(s1) && s2 == WithSlot(s1, cr3, EMPTY) && forall x | IsRoot(s.own, x) :: IsRoot(s1.own, x)
    requires UnmapsProps(s0.mem, s0.own, r, q, s1.mem)
    ensures UnmapsProps(s.mem, s.own, r, q, s2.mem)
  {
    forall r', p' | IsPlace(s.own, r', p')
      ensures PropAt(s0.mem, r', p') == PropAt(s.mem, r', p') && PropAt(s2.mem, r', p') == PropAt(s1.mem, r', p')
    {
      SlotProps(s, cr3, e, r', p');
      assert IsPlace(s1.own, r', p');
      SlotProps(s1, cr3, EMPTY, r', p');
    }
  }

  lemma SlotKeepsWritable(s: Vm, cr3: int, e: Pte)
    requires TablesWritable(s) && IsRoot(s.own, cr3)
    ensures TablesWritable(WithSlot(s, cr3, e))
  {
    forall f, i ensures OpenAt(WithSlot(s, cr3, e), f, i) {
      assert OpenAt(s, f, i);
      LowSlot(if f in s.own then s.own[f].prefix else [], i);
    }
  }

  /** A mapping made: what `PageTables` and `PageProps` say of it. */
  lemma Mapped(s: Vm, cr3: int, r: int, q: seq<int>, page: int, prop: PageProperties, s': Vm)
    requires Callable(s, r, q) && NoEmptyTable(s) && TablesWritable(s) && IsRoot(s.own, cr3)
    requires s' == Map(s, r, q, page, prop)
    ensures Sound(s') && NoEmptyTable(s') && TablesWritable(s') && IsRoot(s'.own, cr3) && Extends(s, s')
    ensures Updates(s, s', r, q, Some(page)) && MapsProps(s.mem, s.own, r, q, prop, s'.mem)
    ensures forall x | IsRoot(s.own, x) :: IsRoot(s'.own, x)
  {
    MapIsPointwise(s, r, q, page, prop);
    MapFills(s, r, q, page, prop);
    MapKeepsWritable(s, r, q, page, prop);
    MapHasProps(s, r, q, page, prop);
  }

  lemma Unmapped(s: Vm, cr3: int, r: int, q: seq<int>, s': Vm)
    requires Callable(s, r, q) && NoEmptyTable(s) && TablesWritable(s) && IsRoot(s.own, cr3) && s' == Unmap(s, r, q)
    ensures Sound(s') && NoEmptyTable(s') && TablesWritable(s') && IsRoot(s'.own, cr3)
    ensures Updates(s, s', r, q, None) && UnmapsProps(s.mem, s.own, r, q, s'.mem)
    ensures forall x | IsRoot(s.own, x) :: IsRoot(s'.own, x)
  {
    UnmapIsPointwise(s, r, q);
    UnmapKeepsWritable(s, r, q);
    UnmapHasProps(s, r, q, s');
  }

  /** Slot 509 opened for another root. */
  lemma Opened(s: Vm, cr3: int, r: int, q: seq<int>, prop: PageProperties, s0: Vm)
    requires Callable(s, r, q) && IsRoot(s.own, cr3) && TablesWritable(s) && SelfMapped(s.mem, cr3) && NoEmptyTable(s)
    requires s0 == WithSlot(s, cr3, Pte(true, r, prop))
    ensures Callable(s0, r, q) && Editing(s0, cr3, OTHER, r, q) && NoEmptyTable(s0) && SamePages(s, s0)
    ensures SlotWritable(s0, cr3, OTHER) == prop.writable
  {
    SlotOpens(s, cr3, r, q, prop);
    SlotEditing(s, cr3, r, q, prop, s0);
  }

  /** A mapping made through slot 509, opened before and cleared after. */
  lemma MappedThrough(s: Vm, s0: Vm, s1: Vm, s2: Vm, cr3: int, r: int, q: seq<int>, page: int, prop: PageProperties)
    requires Sound(s) && IsRoot(s.own, cr3) && s0 == WithSlot(s, cr3, Pte(true, r, prop)) && SamePages(s, s0)
    requires Sound(s1) && NoEmptyTable(s1) && TablesWritable(s1) && IsRoot(s1.own, cr3) && Extends(s0, s1)
    requires Updates(s0, s1, r, q, Some(page)) && MapsProps(s0.mem, s0.own, r, q, prop, s1.mem) && Spares(s0, s1)
    requires s2 == WithSlot(s1, cr3, EMPTY) && forall x | IsRoot(s.own, x) :: IsRoot(s1.own, x)
    ensures Sound(s2) && NoEmptyTable(s2) && TablesWritable(s2) && IsRoot(s2.own, cr3) && Extends(s, s2)
    ensures s2.mem(Cell(cr3, ACTIVE)) == s.mem(Cell(cr3, ACTIVE))
    ensures Updates(s, s2, r, q, Some(page)) && MapsProps(s.mem, s.own, r, q, prop, s2.mem)
    ensures SparesBut(s, s2, Cell(cr3, OTHER))
  {
    SlotCloses(s, s0, s1, s2, cr3, Pte(true, r, prop), r, q, Some(page));
    SlotMapsProps(s, s0, s1, s2, cr3, Pte(true, r, prop), r, q, prop);
    SlotKeepsWritable(s1, cr3, EMPTY);
  }

  lemma UnmappedThrough(s: Vm, s0: Vm, s1: Vm, s2: Vm, cr3: int, r: int, q: seq<int>)
    requires Sound(s) && IsRoot(s.own, cr3) && s0 == WithSlot(s, cr3, Pte(true, r, PageKernelWrite)) && SamePages(s, s0)
    requires Sound(s1) && NoEmptyTable(s1) && TablesWritable(s1) && IsRoot(s1.own, cr3)
    requires Updates(s0, s1, r, q, None) && UnmapsProps(s0.mem, s0.own, r, q, s1.mem) && Spares(s0, s1)
    requires s2 == WithSlot(s1, cr3, EMPTY) && forall x | IsRoot(s.own, x) :: IsRoot(s1.own, x)
    ensures Sound(s2) && NoEmptyTable(s2) && TablesWritable(s2) && IsRoot(s2.own, cr3)
    ensures s2.mem(Cell(cr3, ACTIVE)) == s.mem(Cell(cr3, ACTIVE))
    ensures Updates(s, s2, r, q, None) && UnmapsProps(s.mem, s.own, r, q, s2.mem)
    ensures SparesBut(s, s2, Cell(cr3, OTHER))
  {
    SlotCloses(s, s0, s1, s2, cr3, Pte(true, r, PageKernelWrite), r, q, None);
    SlotUnmapsProps(s, s0, s1, s2, cr3, Pte(true, r, PageKernelWrite), r, q);
    SlotKeepsWritable(s1, cr3, EMPTY);
  }

  /** The entry of the page itself can be written exactly if the link's slot can. */
  lemma LeafWritable(s3: Vm, cr3: int, table: bv64, root: int, virt: bv64)
    requires IsLink(table) && Editing(s3, cr3, LinkOf(table), root, PathOf(virt))
    requires TableAt(s3.mem, cr3, PathOf(PtAddress(table, virt))).Some?
    ensures Allowed(s3.mem, cr3, PathOf(PtAddress(table, virt)), Writing) <==> LinkWritable(s3, cr3, table)
  {
    WritableIff(s3, cr3, LinkOf(table), root, PathOf(virt));
    RecursiveAddressesReach(s3.mem, cr3, table, root, virt);
    PathOfPt(table, virt);
  }

  /** Writing the page's entry once its tables are there. */
  lemma LeafSpares(s: Vm, s3: Vm, s': Vm, root: int, q: seq<int>, page: int, prop: PageProperties)
    requires Callable(s, root, q) && s3 == Nest(s, root, q, Upper(prop)) && Spares(s, s3) && Inside(s, s3)
    requires s' == s3.(mem := Write(s3.mem, Cell(Leaf(s3, root, q), q[3]), Pte(true, page, prop)))
    ensures s' == Map(s, root, q, page, prop) && Spares(s, s')
  {
    NestKeeps(s, root, q, Upper(prop));
    PathParts(q);
    WriteSpares(s3, Leaf(s3, root, q), q[3], Pte(true, page, prop));
    SparesTwice(s, s3, s');
  }

  lemma SlotIsWritable(s: Vm, cr3: int)
    requires Sound(s) && TablesWritable(s) && IsRoot(s.own, cr3) && SelfMapped(s.mem, cr3)
    ensures Allowed(s.mem, cr3, [ACTIVE, ACTIVE, ACTIVE, ACTIVE], Writing)
  {
    var q := [0, 0, 0, 0];
    WritableIff(s, cr3, ACTIVE, cr3, q);
  }

  /** The states a nesting goes through, each table in it at its recursive address and writable there exactly if
      the slot is. */
  lemma NestSeen(s: Vm, cr3: int, link: int, root: int, q: seq<int>, prop: PageProperties)
    requires Editing(s, cr3, link, root, q) && Callable(s, root, q) && prop.writable
    ensures NestWrites(s, cr3, link, root, q, prop, SlotWritable(s, cr3, link))
    ensures var s1, s2, s3 := Nest1(s, root, q, prop), Nest2(s, root, q, prop), Nest(s, root, q, prop);
      var pdpt := Child(s1, root, q[0]); var pd := Child(s2, pdpt, q[1]);
      && TableAt(s.mem, cr3, [ACTIVE, ACTIVE, ACTIVE, link]) == Some(root)
      && TableAt(s1.mem, cr3, [ACTIVE, ACTIVE, link, q[0]]) == Some(pdpt) && pdpt in s1.own && FramesOk(s1)
      && TableAt(s2.mem, cr3, [ACTIVE, link, q[0], q[1]]) == Some(pd) && pd in s2.own && FramesOk(s2)
      && TableAt(s3.mem, cr3, [link, q[0], q[1], q[2]]) == Some(Leaf(s3, root, q))
      && Child(s2, root, q[0]) == pdpt && (s.mem(Cell(root, q[0])).present || s.frames != [])
      && (s1.mem(Cell(pdpt, q[1])).present || s1.frames != []) && (s2.mem(Cell(pd, q[2])).present || s2.frames != [])
    ensures var s3 := Nest(s, root, q, prop);
      && Spares(s, s3) && Inside(s, s3) && Editing(s3, cr3, link, root, q)
      && SlotWritable(s3, cr3, link) == SlotWritable(s, cr3, link)
  {
    var s1, s2, s3 := Nest1(s, root, q, prop), Nest2(s, root, q, prop), Nest(s, root, q, prop);
    NestWritesIff(s, cr3, link, root, q, prop);
    RecursiveWalk(s.mem, cr3, link, root, q);
    Down1(s, cr3, link, root, q, prop, s1);
    var pdpt := Child(s1, root, q[0]);
    Down2(s1, cr3, link, root, q, prop, pdpt, s2);
    var pd := Child(s2, pdpt, q[1]);
    Down3(s2, cr3, link, root, q, prop, pdpt, pd, s3);
    SparesTwice(s, s1, s2);
    SparesTwice(s, s2, s3);
  }

  /** A call for the page of `virt` in `root` can be made through the link `table`. */
  ghost predicate Reachable(s: Vm, cr3: int, table: bv64, root: int, virt: bv64) {
    IsLink(table) && Editing(s, cr3, LinkOf(table), root, PathOf(virt)) && Callable(s, root, PathOf(virt))
  }

  /** The link's slot lets the hardware write. */
  ghost predicate LinkWritable(s: Vm, cr3: int, table: bv64) { SlotWritable(s, cr3, LinkOf(table)) }

  // ----- The manager -------------------------------------------------------------------------------

  class Manager {
    var mem: Memory
    var cr3: int
    var frames: seq<int>     // what the physical allocator will hand out
    var freed: seq<int>      // what has been given back to it
    ghost var own: Owners
    ghost var refused: bool  // the hardware would have refused a write, were supervisor writes checked

    ghost function State(): Vm
      reads this
    {
      Vm(mem, own, frames)
    }

    ghost predicate Valid()
      reads this
    {
      && Sound(State()) && NoEmptyTable(State()) && TablesWritable(State())
      && IsRoot(own, cr3) && SelfMapped(mem, cr3)
    }

    /** A write through the page with the indices `page`. */
    ghost method Touch(page: seq<int>)
      modifies this`refused
      ensures refused == (old(refused) || !Allowed(mem, cr3, page, Writing))
    {
      refused := refused || !Allowed(mem, cr3, page, Writing);
    }

    /** vmm_get_or_create_entry on the table in frame `t`. */
    method GetOrCreateIn(t: int, i: int, prop: PageProperties) returns (child: int)
      requires t in own && (mem(Cell(t, i)).present || frames != [])
      requires FramesOk(State())
      modifies this`mem, this`frames, this`own
      ensures State() == GetOrCreate(old(State()), t, i, prop) && child == Child(State(), t, i)
    {
      if mem(Cell(t, i)).present {
        child := mem(Cell(t, i)).frame;
      } else {
        child := frames[0];
        frames := frames[1..];
        mem := Write(mem, Cell(t, i), Pte(true, child, prop));
        mem := Zero(mem, child);
        own := OwnNew(own, t, i, child);
      }
    }

    /** The same on the table at a virtual address, which the hardware finds in frame `f`. */
    method GetOrCreateEntry(table: bv64, i: int, prop: PageProperties, ghost f: int)
      requires TableAt(mem, cr3, PathOf(table)) == Some(f) && f in own && FramesOk(State())
      requires mem(Cell(f, i)).present || frames != []
      modifies this`mem, this`frames, this`own, this`refused
      ensures State() == GetOrCreate(old(State()), f, i, prop)
      ensures refused <==>
        old(refused) || (!old(mem)(Cell(f, i)).present && !Allowed(old(mem), cr3, PathOf(table), Writing))
    {
      if !mem(Cell(f, i)).present { Touch(PathOf(table)); }
      var child := GetOrCreateIn(TableAt(mem, cr3, PathOf(table)).value, i, prop);
    }

    /** The recursive branch of vmm_get_most_nested_table; `root` is behind the link `table`. The tables are
        made writable, and otherwise as `prop` says. */
    method MostNestedRecursive(table: bv64, virt: bv64, prop: PageProperties, ghost root: int) returns (pt: bv64)
      requires Reachable(State(), cr3, table, root, virt)
      modifies this`mem, this`frames, this`own, this`refused
      ensures State() == Nest(old(State()), root, PathOf(virt), prop.(writable := true))
      ensures Spares(old(State()), State()) && Inside(old(State()), State())
      ensures Editing(State(), cr3, LinkOf(table), root, PathOf(virt))
      ensures LinkWritable(State(), cr3, table) == LinkWritable(old(State()), cr3, table)
      ensures old(refused) ==> refused
      ensures LinkWritable(old(State()), cr3, table) ==> refused == old(refused)
      ensures pt == PtAddress(table, virt)
      ensures TableAt(mem, cr3, PathOf(pt)) == Some(Leaf(State(), root, PathOf(virt)))
    {
      ghost var s, link := State(), LinkOf(table);
      var q, suProp := PathOf(virt), PageProperties(true, prop.user, prop.cacheDisable);
      NestSeen(s, cr3, link, root, q, suProp);
      PathOfRoot(table);
      GetOrCreateEntry(RootAddress(table), q[0], suProp, root);
      ghost var s1 := State();
      PathOfPdpt(table, virt);
      GetOrCreateEntry(PdptAddress(table, virt), q[1], suProp, Child(s1, root, q[0]));
      ghost var s2 := State();
      PathOfPd(table, virt);
      GetOrCreateEntry(PdAddress(table, virt), q[2], suProp, Child(s2, Child(s2, root, q[0]), q[1]));
      PathOfPt(table, virt);
      pt := PtAddress(table, virt);
    }

    /** The other branch of vmm_get_most_nested_table, where tables are reached by physical address: the same
        tables are made. */
    method MostNestedDirect(root: int, q: seq<int>, prop: PageProperties) returns (pt: int)
      requires Callable(State(), root, q)
      modifies this`mem, this`frames, this`own
      ensures State() == Nest(old(State()), root, q, prop.(writable := true)) && pt == Leaf(State(), root, q)
    {
      ghost var s := State();
      var suProp := PageProperties(true, prop.user, prop.cacheDisable);
      var pdpt := GetOrCreateIn(root, q[0], suProp);
      ghost var s1 := State();
      Nest1Keeps(s, root, q, suProp);
      var pd := GetOrCreateIn(pdpt, q[1], suProp);
      ghost var s2 := State();
      Nest2Keeps(s1, root, q, suProp);
      pt := GetOrCreateIn(pd, q[2], suProp);
      Nest3Keeps(s2, root, q, suProp, pdpt, pd);
    }

    /** vmm_get_most_nested_table: whichever branch the test of the address takes, the same tables are made. */
    method MostNested(table: bv64, virt: bv64, prop: PageProperties, ghost root: int) returns (leaf: int)
      requires IsRecursive(table) ==> Reachable(State(), cr3, table, root, virt)
      requires !IsRecursive(table) ==> root == (table - MEMV_OFFSET) as int && Callable(State(), root, PathOf(virt))
      modifies this`mem, this`frames, this`own, this`refused
      ensures State() == Nest(old(State()), root, PathOf(virt), prop.(writable := true))
      ensures leaf == Leaf(State(), root, PathOf(virt))
    {
      if IsRecursive(table) {
        var pt := MostNestedRecursive(table, virt, prop, root);
        leaf := TableAt(mem, cr3, PathOf(pt)).value;
      } else {
        leaf := MostNestedDirect((table - MEMV_OFFSET) as int, PathOf(virt), prop);
      }
    }

    method MapPageImpl(table: bv64, page: int, virt: bv64, prop: PageProperties, ghost root: int)
      requires Reachable(State(), cr3, table, root, virt)
      modifies this`mem, this`frames, this`own, this`refused
      ensures State() == Map(old(State()), root, PathOf(virt), page, prop)
      ensures Spares(old(State()), State())
      ensures refused <==> old(refused) || !LinkWritable(old(State()), cr3, table)
    {
      ghost var s := State();
      var q := PathOf(virt);
      var pt := MostNestedRecursive(table, virt, prop, root);
      ghost var s3 := State();
      LeafWritable(s3, cr3, table, root, virt);
      Touch(PathOf(pt));
      mem := Write(mem, Cell(TableAt(mem, cr3, PathOf(pt)).value, q[3]), Pte(true, page, prop));
      LeafSpares(s, s3, State(), root, q, page, prop);
    }

    /** Entry 509 of the active root, which is written through its own recursive link. */
    method SetSlot(e: Pte)
      requires Sound(State()) && TablesWritable(State()) && IsRoot(own, cr3) && SelfMapped(mem, cr3)
      modifies this`mem, this`refused
      ensures mem == Write(old(mem), Cell(cr3, OTHER), e) && refused == old(refused)
    {
      SlotIsWritable(State(), cr3);
      Touch([ACTIVE, ACTIVE, ACTIVE, ACTIVE]);
      mem := Write(mem, Cell(cr3, OTHER), e);
    }

    method MapOther(table: int, page: int, virt: bv64, prop: PageProperties)
      requires Valid() && Callable(State(), table, PathOf(virt))
      modifies this`mem, this`frames, this`own, this`refused
      ensures Valid() && Extends(old(State()), State())
      ensures Updates(old(State()), State(), table, PathOf(virt), Some(page))
      ensures MapsProps(old(mem), old(own), table, PathOf(virt), prop, mem)
      ensures refused <==> old(refused) || !prop.writable
      ensures SparesBut(old(State()), State(), Cell(cr3, OTHER)) && mem(Cell(cr3, OTHER)) == EMPTY
    {
      ghost var s, q := State(), PathOf(virt);
      Opened(s, cr3, table, q, prop, WithSlot(s, cr3, Pte(true, table, prop)));
      SetSlot(Pte(true, table, prop));
      ghost var s0 := State();
      LinkParts(RecurseLink(RECURSE_OTHER), RECURSE_OTHER);
      MapPageImpl(RecurseLink(RECURSE_OTHER), page, virt, prop, table);
      ghost var s1 := State();
      Mapped(s0, cr3, table, q, page, prop, s1);
      SetSlot(EMPTY);
      MappedThrough(s, s0, s1, State(), cr3, table, q, page, prop);
    }

    method MapActive(page: int, virt: bv64, prop: PageProperties)
      requires Valid() && Callable(State(), cr3, PathOf(virt))
      modifies this`mem, this`frames, this`own, this`refused
      ensures Valid() && Extends(old(State()), State())
      ensures Updates(old(State()), State(), cr3, PathOf(virt), Some(page))
      ensures MapsProps(old(mem), old(own), cr3, PathOf(virt), prop, mem)
      ensures Spares(old(State()), State()) && refused == old(refused)
    {
      ghost var s := State();
      LinkParts(RecurseLink(RECURSE_ACTIVE), RECURSE_ACTIVE);
      MapPageImpl(RecurseLink(RECURSE_ACTIVE), page, virt, prop, cr3);
      Mapped(s, cr3, cr3, PathOf(virt), page, prop, State());
    }

    /** Main result: vmm_map_page, for the active root or any other: exactly one translation changes, in that
        root, to the frame of the created entry, and with exactly the properties asked for; the hardware then
        allows an access exactly if the page is mapped for it and the tables that were there give it; every other
        entry keeps its properties; the entry used to reach another root is cleared; nothing of the kernel half
        changes. Were supervisor writes checked, exactly those for a read-only page in another root would be
        refused. */
    method MapPage(table: int, phys: bv64, virt: bv64, prop: PageProperties)
      requires Valid() && Callable(State(), Target(table), PathOf(virt))
      modifies this`mem, this`frames, this`own, this`refused
      ensures Valid() && Extends(old(State()), State())
      ensures var page := FrameOf(PageCreate(phys, prop)) as int;
              Updates(old(State()), State(), old(Target(table)), PathOf(virt), Some(page))
      ensures MapsProps(old(mem), old(own), old(Target(table)), PathOf(virt), prop, mem)
      ensures forall w :: Allowed(mem, old(Target(table)), PathOf(virt), w) <==>
        Gives(prop, w) && TablesGive(old(mem), old(Target(table)), PathOf(virt), w)
      ensures SparesBut(old(State()), State(), Cell(cr3, OTHER))
      ensures mem(Cell(cr3, OTHER)) == if old(Target(table)) == cr3 then old(mem)(Cell(cr3, OTHER)) else EMPTY
      ensures refused <==> old(refused) || (old(Target(table)) != cr3 && !prop.writable)
    {
      ghost var s, root := State(), Target(table);
      var e := Decoded(PageCreate(phys, prop));
      CreatedReads(phys, prop);
      if table == 0 || table == cr3 {
        MapActive(e.frame, virt, e.prop);
      } else {
        MapOther(table, e.frame, virt, e.prop);
      }
      forall w
        ensures Allowed(mem, root, PathOf(virt), w) <==> Gives(prop, w) && TablesGive(s.mem, root, PathOf(virt), w)
      {
        MappedAllows(s.mem, s.own, root, PathOf(virt), prop, mem, w);
      }
    }

    /** The root a call is about. */
    function Target(table: int): int
      reads this
    {
      if table == 0 then cr3 else table
    }

    /** vmm_is_table_free, on the table whose virtual address has the indices `table`. */
    method IsTableFree(table: seq<int>, ghost f: int) returns (free: bool)
      requires TableAt(mem, cr3, table) == Some(f)
      ensures free <==> IsEmpty(mem, f)
    {
      var t := TableAt(mem, cr3, table).value;
      for i := 0 to 512
        invariant forall j | 0 <= j < i :: !mem(Cell(f, j)).present
      {
        if mem(Cell(t, i)).present { return false; }
      }
      return true;
    }

    /** vmm_free_if_necessary_table: an empty table's frame goes back to the physical allocator. */
    method FreeIfNecessary(table: seq<int>, parent: seq<int>, i: int, ghost f: int)
      requires TableAt(mem, cr3, parent) == Some(f) && TableAt(mem, cr3, table) == Some(Child(State(), f, i))
      modifies this`mem, this`own, this`freed, this`refused
      ensures State() == Prune(old(State()), f, i)
      ensures refused <==>
        old(refused) || (IsEmpty(old(mem), old(Child(State(), f, i))) && !Allowed(old(mem), cr3, parent, Writing))
      ensures var child := old(Child(State(), f, i));
              freed == old(freed) + if IsEmpty(old(mem), child) then [child] else []
    {
      var free := IsTableFree(table, Child(State(), f, i));
      if free {
        own := own - {Child(State(), f, i)};
        var p := TableAt(mem, cr3, parent).value;
        freed := freed + [mem(Cell(p, i)).frame];
        Touch(parent);
        mem := Write(mem, Cell(p, i), mem(Cell(p, i)).(present := false));
      }
    }

    /** vmm_get_table_address through a recurse link: for depth 2 and 3 the missing tables below the first one
        are made. */
    method GetTableAddress(table: bv64, virt: bv64, depth: nat, ghost root: int) returns (t: bv64)
      requires Reachable(State(), cr3, table, root, virt) && mem(Cell(root, PathOf(virt)[0])).present
      modifies this`mem, this`frames, this`own, this`refused
      ensures depth < 2 ==> State() == old(State())
      ensures depth == 2 ==> State() == Nest2(old(State()), root, PathOf(virt), PageKernelWrite)
      ensures depth > 2 ==> State() == Nest(old(State()), root, PathOf(virt), PageKernelWrite)
      ensures LinkWritable(old(State()), cr3, table) ==> refused == old(refused)
      ensures t == if depth == 0 then table else if depth == 1 then PdptAddress(table, virt)
                   else if depth == 2 then PdAddress(table, virt) else PtAddress(table, virt)
    {
      if depth == 0 { return table; }
      if depth == 1 { return PdptAddress(table, virt); }
      ghost var s, link := State(), LinkOf(table);
      var q := PathOf(virt);
      NestWritesIff(s, cr3, link, root, q, PageKernelWrite);
      Down1(s, cr3, link, root, q, PageKernelWrite, s);
      ghost var pdpt := Child(s, root, q[0]);
      PathOfPdpt(table, virt);
      GetOrCreateEntry(PdptAddress(table, virt), q[1], PageKernelWrite, pdpt);
      if depth == 2 { return PdAddress(table, virt); }
      ghost var s2 := State();
      Down2(s, cr3, link, root, q, PageKernelWrite, pdpt, s2);
      PathOfPd(table, virt);
      GetOrCreateEntry(PdAddress(table, virt), q[2], PageKernelWrite, Child(s2, pdpt, q[1]));
      return PtAddress(table, virt);
    }

    /** vmm_get_table_address by physical address. Depth 1 makes all three tables and gives the last one, where
        the other branch gives the first. */
    method GetTableDirect(root: int, q: seq<int>, depth: nat) returns (t: int)
      requires Callable(State(), root, q)
      modifies this`mem, this`frames, this`own
      ensures State() == if depth == 0 then old(State())
        else if depth == 2 then Nest2(old(State()), root, q, PageKernelWrite)
                         else Nest(old(State()), root, q, PageKernelWrite)
      ensures t == if depth == 0 then root else if depth == 2 then Child(State(), Child(State(), root, q[0]), q[1])
                   else Leaf(State(), root, q)
    {
      if depth == 0 { return root; }
      ghost var s := State();
      var pdpt := GetOrCreateIn(root, q[0], PageKernelWrite);
      ghost var s1 := State();
      Nest1Keeps(s, root, q, PageKernelWrite);
      var pd := GetOrCreateIn(pdpt, q[1], PageKernelWrite);
      ghost var s2 := State();
      Nest2Keeps(s1, root, q, PageKernelWrite);
      if depth == 2 { return pd; }
      t := GetOrCreateIn(pd, q[2], PageKernelWrite);
      Nest3Keeps(s2, root, q, PageKernelWrite, pdpt, pd);
    }

    /** The three tables pruned bottom up, each reached by its address. */
    method PruneTables(pt: seq<int>, pd: seq<int>, pdpt: seq<int>, table: seq<int>, q: seq<int>,
                       ghost link: int, ghost root: int, ghost f1: int, ghost f2: int, ghost f3: int)
      requires Editing(State(), cr3, link, root, q) && Chain(State(), root, q, f1, f2, f3)
      requires pt == [link, q[0], q[1], q[2]] && pd == [ACTIVE, link, q[0], q[1]]
      requires pdpt == [ACTIVE, ACTIVE, link, q[0]] && table == [ACTIVE, ACTIVE, ACTIVE, link]
      modifies this`mem, this`own, this`freed, this`refused
      ensures State() == PruneAll(old(State()), root, q)
      ensures SlotWritable(old(State()), cr3, link) ==> refused == old(refused)
      ensures Spares(old(State()), State()) && Inside(old(State()), State())
      ensures GivesBack(old(State()), State(), old(freed), freed)
    {
      ghost var s4, freed4 := State(), freed;
      if SlotWritable(s4, cr3, link) { PruneIsAllowed(s4, cr3, link, root, q, f1, f2, f3); }
      ChainSeen(s4, cr3, link, root, q, f1, f2, f3);
      FreeIfNecessary(pt, pd, q[2], f2);
      ghost var s5, freed5 := State(), freed;
      Up1(s4, cr3, link, root, q, f1, f2, f3, s5);
      PruneGivesBack(s4, f2, q[2], freed4, freed5);
      FreeIfNecessary(pd, pdpt, q[1], f1);
      ghost var s6, freed6 := State(), freed;
      Up2(s5, cr3, link, root, q, f1, f2, s6);
      PruneGivesBack(s5, f1, q[1], freed5, freed6);
      FreeIfNecessary(pdpt, table, q[0], root);
      Up3(s6, cr3, link, root, q, State());
      PruneGivesBack(s6, root, q[0], freed6, freed);
      GivesBackTwice(s4, s5, s6, freed4, freed5, freed6);
      GivesBackTwice(s4, s6, State(), freed4, freed6, freed);
      SparesTwice(s4, s5, s6);
      SparesTwice(s4, s6, State());
    }

    method FreeIfNecessaryTables(table: bv64, virt: bv64, ghost root: int, ghost pdpt: int, ghost pd: int,
                                 ghost pt: int)
      requires IsLink(table) && Editing(State(), cr3, LinkOf(table), root, PathOf(virt))
      requires Chain(State(), root, PathOf(virt), pdpt, pd, pt)
      modifies this`mem, this`frames, this`own, this`freed, this`refused
      ensures LinkWritable(old(State()), cr3, table) ==> refused == old(refused)
      ensures State() == PruneAll(old(State()), root, PathOf(virt))
      ensures Spares(old(State()), State()) && Inside(old(State()), State())
      ensures GivesBack(old(State()), State(), old(freed), freed)
    {
      ghost var s4 := State();
      var pdptVa := GetTableAddress(table, virt, 1, root);
      var pdVa := GetTableAddress(table, virt, 2, root);
      var ptVa := GetTableAddress(table, virt, 3, root);
      assert State() == s4;
      LinksAreRecursive(table);
      PathOfRoot(table);
      PathOfPdpt(table, virt);
      PathOfPd(table, virt);
      PathOfPt(table, virt);
      PruneTables(PathOf(ptVa), PathOf(pdVa), PathOf(pdptVa), PathOf(table), PathOf(virt),
                  LinkOf(table), root, pdpt, pd, pt);
    }

    /** The page's entry loses its present bit; the tables above it are still there. */
    method ClearPage(table: bv64, virt: bv64, ghost root: int)
      requires Reachable(State(), cr3, table, root, virt)
      modifies this`mem, this`frames, this`own, this`refused
      ensures State() == Cleared(old(State()), root, PathOf(virt))
      ensures Spares(old(State()), State()) && Inside(old(State()), State())
      ensures Editing(State(), cr3, LinkOf(table), root, PathOf(virt))
      ensures LinkWritable(State(), cr3, table) == LinkWritable(old(State()), cr3, table)
      ensures LinkWritable(old(State()), cr3, table) ==> refused == old(refused)
    {
      ghost var s := State();
      var q := PathOf(virt);
      var pt := MostNestedRecursive(table, virt, PageKernelWrite, root);
      ghost var s3 := State();
      NestKeeps(s, root, q, PageKernelWrite);
      LeafWritable(s3, cr3, table, root, virt);
      Touch(PathOf(pt));
      var t := TableAt(mem, cr3, PathOf(pt)).value;
      mem := Write(mem, Cell(t, q[3]), mem(Cell(t, q[3])).(present := false));
      PathParts(q);
      WriteSpares(s3, Leaf(s3, root, q), q[3], mem(Cell(t, q[3])));
      ClearedEditing(s, cr3, LinkOf(table), root, q, s3, State());
      SparesTwice(s, s3, State());
    }

    method UnmapPageImpl(table: bv64, virt: bv64, ghost root: int) returns (res: bool)
      requires Reachable(State(), cr3, table, root, virt)
      modifies this`mem, this`frames, this`own, this`freed, this`refused
      ensures LinkWritable(old(State()), cr3, table) ==> refused == old(refused)
      ensures res && State() == Unmap(old(State()), root, PathOf(virt))
      ensures Spares(old(State()), State())
      ensures Accounted(old(own), own, old(freed), freed)
    {
      ghost var s, q := State(), PathOf(virt);
      ClearPage(table, virt, root);
      ghost var s4 := State();
      ClearedKeeps(s, root, q);
      StillLinked(s, s4, cr3, LinkOf(table), root);
      FreeIfNecessaryTables(table, virt, root,
                            Child(s4, root, q[0]), Child(s4, Child(s4, root, q[0]), q[1]), Leaf(s4, root, q));
      SparesTwice(s, s4, State());
      GivenBackAccounts(s.own, s4, State(), old(freed), freed);
      res := true;
    }

    method UnmapActive(virt: bv64) returns (res: bool)
      requires Valid() && Callable(State(), cr3, PathOf(virt))
      modifies this`mem, this`frames, this`own, this`freed, this`refused
      ensures res && Valid() && Updates(old(State()), State(), cr3, PathOf(virt), None)
      ensures UnmapsProps(old(mem), old(own), cr3, PathOf(virt), mem) && refused == old(refused)
      ensures Spares(old(State()), State()) && Accounted(old(own), own, old(freed), freed)
    {
      ghost var s, q := State(), PathOf(virt);
      LinkParts(RecurseLink(RECURSE_ACTIVE), RECURSE_ACTIVE);
      res := UnmapPageImpl(RecurseLink(RECURSE_ACTIVE), virt, cr3);
      Unmapped(s, cr3, cr3, q, State());
    }

    method UnmapOther(table: int, virt: bv64) returns (res: bool)
      requires Valid() && Callable(State(), table, PathOf(virt))
      modifies this`mem, this`frames, this`own, this`freed, this`refused
      ensures res && Valid() && Updates(old(State()), State(), table, PathOf(virt), None)
      ensures UnmapsProps(old(mem), old(own), table, PathOf(virt), mem) && refused == old(refused)
      ensures SparesBut(old(State()), State(), Cell(cr3, OTHER)) && mem(Cell(cr3, OTHER)) == EMPTY
      ensures Accounted(old(own), own, old(freed), freed)
    {
      ghost var s, q := State(), PathOf(virt);
      Opened(s, cr3, table, q, PageKernelWrite, WithSlot(s, cr3, Pte(true, table, PageKernelWrite)));
      SetSlot(Pte(true, table, PageKernelWrite));
      ghost var s0 := State();
      LinkParts(RecurseLink(RECURSE_OTHER), RECURSE_OTHER);
      res := UnmapPageImpl(RecurseLink(RECURSE_OTHER), virt, table);
      ghost var s1 := State();
      Unmapped(s0, cr3, table, q, s1);
      SetSlot(EMPTY);
      UnmappedThrough(s, s0, s1, State(), cr3, table, q);
    }

    /** Main result: vmm_unmap_page removes exactly one translation; every other page, and every table that stays,
        keeps its properties; no table is left without an entry; no write would be refused. */
    method UnmapPage(table: int, virt: bv64) returns (res: bool)
      requires Valid() && Callable(State(), Target(table), PathOf(virt))
      modifies this`mem, this`frames, this`own, this`freed, this`refused
      ensures res && Valid()
      ensures UnmapsProps(old(mem), old(own), old(Target(table)), PathOf(virt), mem) && refused == old(refused)
      ensures Updates(old(State()), State(), old(Target(table)), PathOf(virt), None)
      ensures SparesBut(old(State()), State(), Cell(cr3, OTHER))
      ensures mem(Cell(cr3, OTHER)) == if old(Target(table)) == cr3 then old(mem)(Cell(cr3, OTHER)) else EMPTY
      ensures Accounted(old(own), own, old(freed), freed)
    {
      if table == 0 || table == cr3 {
        res := UnmapActive(virt);
      } else {
        res := UnmapOther(table, virt);
      }
    }

    /** vmm_virt_to_phys, when the tables on the way exist. The last entry is read whether or not it is
        present. */
    method VirtToPhys(table: int, virt: bv64) returns (phys: int)
      requires Valid() && TableAt(mem, Target(table), PathOf(virt)[..3]).Some?
      ensures TableAt(mem, Target(table), PathOf(virt)).Some? ==>
                phys == TableAt(mem, Target(table), PathOf(virt)).value + PageOffset(virt) as int
      ensures phys == PageOffset(virt) as int +
                mem(Cell(TableAt(mem, Target(table), PathOf(virt)[..3]).value, PathOf(virt)[3])).frame
    {
      var q := PathOf(virt);
      var t;
      if table == 0 || table == cr3 {
        LinkParts(RecurseLink(RECURSE_ACTIVE), RECURSE_ACTIVE);
        RecursiveAddressesReach(mem, cr3, RecurseLink(RECURSE_ACTIVE), cr3, virt);
        t := TableAt(mem, cr3, PathOf(PtAddress(RecurseLink(RECURSE_ACTIVE), virt))).value;
      } else {
        Steps(mem, table, q);
        var pdpt := mem(Cell(table, q[0])).frame;
        var pd := mem(Cell(pdpt, q[1])).frame;
        t := mem(Cell(pd, q[2])).frame;
      }
      phys := mem(Cell(t, q[3])).frame + PageOffset(virt) as int;
    }
  }
}
