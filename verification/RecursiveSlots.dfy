/**
  Page tables reached through the active root's recursive slots. A virtual page is the list of its four indices;
  the kernel reaches a page table by a virtual page whose first indices are the recursive slots, and the
  hardware walk from the active root decides which frame that is.
 */
module RecursiveSlots {
  import opened Common
  import opened PagingBits
  import opened PageTables

  const ACTIVE := 510
  const OTHER := 509

  /** The indices of a virtual address. */
  function PathOf(virt: bv64): seq<int> {
    [Pl4Index(virt) as int, DptIndex(virt) as int, DirIndex(virt) as int, TabIndex(virt) as int]
  }

  /** The index list of a recursive address. */
  lemma PathOfRecursiveAddress(gate: bv64, p3: bv64, p2: bv64, p1: bv64)
    requires Index(gate) && Index(p3) && Index(p2) && Index(p1)
    ensures PathOf(RecursiveAddress(gate, p3, p2, p1)) == [gate as int, p3 as int, p2 as int, p1 as int]
  {
    PathOfRecursive(gate, p3, p2, p1);
  }

  // ----- The addresses the kernel computes ---------------------------------------------------------

  /** vmm_get_active_recurse_link and vmm_get_other_recurse_link. */
  function RecurseLink(slot: bv64): bv64 { RecursiveAddress(RECURSE_ACTIVE, RECURSE_ACTIVE, RECURSE_ACTIVE, slot) }

  /** How the code tells an address in the recursive window from one in the mirror of physical memory. */
  predicate IsRecursive(table: bv64) { Pl4Index(table) == RECURSE_ACTIVE || Pl4Index(table) == RECURSE_OTHER }

  predicate IsLink(table: bv64) { table == RecurseLink(RECURSE_ACTIVE) || table == RecurseLink(RECURSE_OTHER) }

  /** The slot a recurse link goes through. */
  function LinkOf(table: bv64): int { TabIndex(table) as int }

  function RootAddress(table: bv64): bv64 {
    RecursiveAddress(Pl4Index(table), Pl4Index(table), Pl4Index(table), TabIndex(table))
  }

  function PdptAddress(table: bv64, virt: bv64): bv64 {
    RecursiveAddress(Pl4Index(table), Pl4Index(table), TabIndex(table), Pl4Index(virt))
  }

  function PdAddress(table: bv64, virt: bv64): bv64 {
    RecursiveAddress(Pl4Index(table), TabIndex(table), Pl4Index(virt), DptIndex(virt))
  }

  function PtAddress(table: bv64, virt: bv64): bv64 {
    RecursiveAddress(TabIndex(table), Pl4Index(virt), DptIndex(virt), DirIndex(virt))
  }

  lemma LinkParts(table: bv64, slot: bv64)
    requires (slot == RECURSE_ACTIVE || slot == RECURSE_OTHER) && table == RecurseLink(slot)
    ensures Pl4Index(table) == RECURSE_ACTIVE && TabIndex(table) == slot
  {
    PathOfRecursive(RECURSE_ACTIVE, RECURSE_ACTIVE, RECURSE_ACTIVE, slot);
  }

  /** Both recurse links pass the test, and name their slot. */
  lemma LinksAreRecursive(table: bv64)
    requires IsLink(table)
    ensures IsRecursive(table) && RootAddress(table) == table && (LinkOf(table) == ACTIVE || LinkOf(table) == OTHER)
    ensures Pl4Index(table) == RECURSE_ACTIVE && Index(TabIndex(table))
  {
    if table == RecurseLink(RECURSE_ACTIVE) {
      LinkParts(table, RECURSE_ACTIVE);
    } else {
      LinkParts(table, RECURSE_OTHER);
    }
  }

  const MEMV_OFFSET: bv64 := 0xffff800000000000

  /** An address in the mirror of physical memory does not. */
  lemma MirrorIsNotRecursive(phys: bv64)
    requires phys < 0x7e8000000000
    ensures !IsRecursive(phys + MEMV_OFFSET)
  {
  }

  lemma PathOfRoot(table: bv64)
    requires IsLink(table)
    ensures PathOf(RootAddress(table)) == [ACTIVE, ACTIVE, ACTIVE, LinkOf(table)]
  {
    LinksAreRecursive(table);
    PathOfRecursiveAddress(Pl4Index(table), Pl4Index(table), Pl4Index(table), TabIndex(table));
  }

  lemma PathOfPdpt(table: bv64, virt: bv64)
    requires IsLink(table)
    ensures PathOf(PdptAddress(table, virt)) == [ACTIVE, ACTIVE, LinkOf(table), PathOf(virt)[0]]
  {
    LinksAreRecursive(table);
    PathIsValid(virt);
    PathOfRecursiveAddress(Pl4Index(table), Pl4Index(table), TabIndex(table), Pl4Index(virt));
  }

  lemma PathOfPd(table: bv64, virt: bv64)
    requires IsLink(table)
    ensures PathOf(PdAddress(table, virt)) == [ACTIVE, LinkOf(table), PathOf(virt)[0], PathOf(virt)[1]]
  {
    LinksAreRecursive(table);
    PathIsValid(virt);
    PathOfRecursiveAddress(Pl4Index(table), TabIndex(table), Pl4Index(virt), DptIndex(virt));
  }

  lemma PathOfPt(table: bv64, virt: bv64)
    requires IsLink(table)
    ensures PathOf(PtAddress(table, virt)) == [LinkOf(table), PathOf(virt)[0], PathOf(virt)[1], PathOf(virt)[2]]
  {
    LinksAreRecursive(table);
    PathIsValid(virt);
    PathOfRecursiveAddress(TabIndex(table), Pl4Index(virt), DptIndex(virt), DirIndex(virt));
  }

  // ----- Recursive walks ---------------------------------------------------------------------------

  lemma {:induction false} WalkSplit(m: Memory, r: int, a: seq<int>, b: seq<int>)
    ensures TableAt(m, r, a + b) == match TableAt(m, r, a) case None => None case Some(t) => TableAt(m, t, b)
    decreases |b|
  {
    if b == [] {
      assert a + b == a;
    } else {
      var n := |b| - 1;
      WalkSplit(m, r, a, b[..n]);
      assert (a + b)[..|a + b| - 1] == a + b[..n];
    }
  }

  /** The active root maps itself at 510, and `root` at `link`. */
  ghost predicate Linked(m: Memory, cr3: int, link: int, root: int) {
    && (link == ACTIVE || link == OTHER)
    && Next(m, cr3, ACTIVE) == Some(cr3) && Next(m, cr3, link) == Some(root)
  }

  lemma ThroughSelf(m: Memory, cr3: int, p: seq<int>)
    requires Next(m, cr3, ACTIVE) == Some(cr3)
    ensures TableAt(m, cr3, [ACTIVE] + p) == TableAt(m, cr3, p)
  {
    assert TableAt(m, cr3, [ACTIVE]) == Some(cr3) by { assert [ACTIVE][..0] == []; }
    WalkSplit(m, cr3, [ACTIVE], p);
  }

  lemma ThroughLink(m: Memory, cr3: int, link: int, root: int, p: seq<int>)
    requires Next(m, cr3, link) == Some(root)
    ensures TableAt(m, cr3, [link] + p) == TableAt(m, root, p)
  {
    assert TableAt(m, cr3, [link]) == Some(root) by { assert [link][..0] == []; }
    WalkSplit(m, cr3, [link], p);
  }

  /** The same on index lists. */
  lemma RecursiveWalk(m: Memory, cr3: int, link: int, root: int, q: seq<int>)
    requires Linked(m, cr3, link, root) && |q| == 4
    ensures TableAt(m, cr3, [ACTIVE, ACTIVE, ACTIVE, link]) == Some(root)
    ensures TableAt(m, cr3, [ACTIVE, ACTIVE, link, q[0]]) == TableAt(m, root, [q[0]])
    ensures TableAt(m, cr3, [ACTIVE, link, q[0], q[1]]) == TableAt(m, root, [q[0], q[1]])
    ensures TableAt(m, cr3, [link, q[0], q[1], q[2]]) == TableAt(m, root, [q[0], q[1], q[2]])
  {
    ThroughLink(m, cr3, link, root, []);
    ThroughLink(m, cr3, link, root, [q[0]]);
    ThroughLink(m, cr3, link, root, [q[0], q[1]]);
    ThroughLink(m, cr3, link, root, [q[0], q[1], q[2]]);
    assert [link] + [q[0], q[1], q[2]] == [link, q[0], q[1], q[2]];
    Behind1(m, cr3, [link, q[0], q[1]]);
    assert [link] + [q[0], q[1]] == [link, q[0], q[1]];
    Behind1(m, cr3, [ACTIVE, link, q[0]]);
    Behind1(m, cr3, [link, q[0]]);
    assert [link] + [q[0]] == [link, q[0]];
    Behind1(m, cr3, [ACTIVE, ACTIVE, link]);
    Behind1(m, cr3, [ACTIVE, link]);
    Behind1(m, cr3, [link]);
    assert [link] + [] == [link];
  }

  /** Main result: by the hardware walk, the four addresses the kernel computes from a recurse link and a
      virtual address reach exactly the root behind that link and the tables on the address's path in it. */
  lemma RecursiveAddressesReach(m: Memory, cr3: int, table: bv64, root: int, virt: bv64)
    requires IsLink(table) && Linked(m, cr3, LinkOf(table), root)
    ensures TableAt(m, cr3, PathOf(RootAddress(table))) == Some(root)
    ensures TableAt(m, cr3, PathOf(PdptAddress(table, virt))) == TableAt(m, root, PathOf(virt)[..1])
    ensures TableAt(m, cr3, PathOf(PdAddress(table, virt))) == TableAt(m, root, PathOf(virt)[..2])
    ensures TableAt(m, cr3, PathOf(PtAddress(table, virt))) == TableAt(m, root, PathOf(virt)[..3])
  {
    var q := PathOf(virt);
    RecursiveWalk(m, cr3, LinkOf(table), root, q);
    PathOfRoot(table);
    PathOfPdpt(table, virt);
    PathOfPd(table, virt);
    PathOfPt(table, virt);
    assert q[..1] == [q[0]] && q[..2] == [q[0], q[1]] && q[..3] == [q[0], q[1], q[2]];
  }

  lemma Behind1(m: Memory, cr3: int, p: seq<int>)
    requires Next(m, cr3, ACTIVE) == Some(cr3) && 1 <= |p| <= 3
    ensures |p| == 1 ==> TableAt(m, cr3, [ACTIVE, p[0]]) == TableAt(m, cr3, p)
    ensures |p| == 2 ==> TableAt(m, cr3, [ACTIVE, p[0], p[1]]) == TableAt(m, cr3, p)
    ensures |p| == 3 ==> TableAt(m, cr3, [ACTIVE, p[0], p[1], p[2]]) == TableAt(m, cr3, p)
  {
    ThroughSelf(m, cr3, p);
    if |p| == 1 { assert [ACTIVE] + p == [ACTIVE, p[0]]; }
    if |p| == 2 { assert [ACTIVE] + p == [ACTIVE, p[0], p[1]]; }
    if |p| == 3 { assert [ACTIVE] + p == [ACTIVE, p[0], p[1], p[2]]; }
  }

  // ----- Slots of the upper half -------------------------------------------------------------------

  /** Writing an upper-half slot of a root is invisible to every user walk. */
  lemma SlotWrite(s: Vm, f: int, i: int, e: Pte)
    requires Sound(s) && IsRoot(s.own, f) && i >= 256
    ensures var s' := s.(mem := Write(s.mem, Cell(f, i), e)); Sound(s') && SamePages(s, s')
    ensures NoEmptyTable(s) ==> NoEmptyTable(s.(mem := Write(s.mem, Cell(f, i), e)))
  {
    var s' := s.(mem := Write(s.mem, Cell(f, i), e));
    forall a, j ensures EntryOk(s'.mem, s.own, a, j) {
      assert EntryOk(s.mem, s.own, a, j);
      if a == f && j == i { assert !UserPath([] + [i]) by { assert ([] + [i])[0] == i; } }
    }
    forall a ensures TableOk(s'.mem, s.own, a) {
      assert TableOk(s.mem, s.own, a);
      if a in s.own { SlotWalk(s, f, i, e, s.own[a].root, s.own[a].prefix); }
    }
    forall r, q | IsRoot(s.own, r) && IsPage(q) ensures TableAt(s'.mem, r, q) == TableAt(s.mem, r, q) {
      SlotWalk(s, f, i, e, r, q);
    }
    if NoEmptyTable(s) {
      forall a | a in s'.own && s'.own[a].prefix != [] ensures !IsEmpty(s'.mem, a) {
        var j :| 0 <= j < 512 && s.mem(Cell(a, j)).present;
        assert s'.mem(Cell(a, j)).present;
      }
    }
  }

  lemma SlotWalk(s: Vm, f: int, i: int, e: Pte, r: int, p: seq<int>)
    requires Sound(s) && IsRoot(s.own, f) && i >= 256 && IsRoot(s.own, r) && |p| <= 4 && UserPath(p)
    ensures TableAt(Write(s.mem, Cell(f, i), e), r, p) == TableAt(s.mem, r, p)
  {
    if [] + [i] <= p { assert p[0] == ([] + [i])[0]; }
    WalkKept(s.mem, Write(s.mem, Cell(f, i), e), s.own, r, p, f, i);
  }

  // ----- What a call leaves alone ------------------------------------------------------------------

  /** Cells outside the user trees and the handed-out frames, and the upper half of every root, are as
      they were. */
  ghost predicate Spares(s: Vm, s': Vm) {
    && (forall c: Cell | c.frame !in s.own && c.frame !in s.frames :: s'.mem(c) == s.mem(c))
    && (forall r, i | IsRoot(s.own, r) && i >= 256 :: s'.mem(Cell(r, i)) == s.mem(Cell(r, i)))
  }

  /** `s'` has the roots of `s`, and all its frames are among those of `s`. */
  ghost predicate Inside(s: Vm, s': Vm) {
    && (forall r :: IsRoot(s.own, r) <==> IsRoot(s'.own, r))
    && (forall f | f in s'.own || f in s'.frames :: f in s.own || f in s.frames)
  }

  lemma SparesTwice(s: Vm, s': Vm, s'': Vm)
    requires Spares(s, s') && Spares(s', s'') && Inside(s, s') && Inside(s', s'')
    ensures Spares(s, s'') && Inside(s, s'')
  {
  }

  lemma CreateSpares(s: Vm, r: int, p: seq<int>, f: int, i: int, prop: PageProperties)
    requires Ready(s, r, p, f, i)
    ensures Spares(s, GetOrCreate(s, f, i, prop)) && Inside(s, GetOrCreate(s, f, i, prop))
  {
    GetOrCreateKeeps(s, r, p, f, i, prop);
    LowSlot(p, i);
  }

  /** A user path out of a root begins in its lower half. */
  lemma LowSlot(p: seq<int>, i: int)
    ensures UserPath(p + [i]) && p == [] ==> i < 256
  {
    assert (p + [i])[|p|] == i;
  }

  lemma WriteSpares(s: Vm, f: int, i: int, e: Pte)
    requires f in s.own && UserPath(s.own[f].prefix + [i])
    ensures Spares(s, s.(mem := Write(s.mem, Cell(f, i), e)))
  {
    LowSlot(s.own[f].prefix, i);
  }

  lemma PruneSpares(s: Vm, f: int, i: int)
    requires Sound(s) && f in s.own && |s.own[f].prefix| < 3 && UserPath(s.own[f].prefix + [i])
    requires s.mem(Cell(f, i)).present
    ensures Spares(s, Prune(s, f, i)) && Inside(s, Prune(s, f, i))
  {
    PruneKeeps(s, f, i);
    WriteSpares(s, f, i, s.mem(Cell(f, i)).(present := false));
  }

  lemma StillLinked(s: Vm, s': Vm, cr3: int, link: int, root: int)
    requires Linked(s.mem, cr3, link, root) && IsRoot(s.own, cr3) && Spares(s, s')
    ensures Linked(s'.mem, cr3, link, root)
  {
  }

  // ----- Steps of the recursive edit ---------------------------------------------------------------

  /** A call for page `q` of `root`, through the slot `link` of the active root. */
  ghost predicate Begun(s: Vm, cr3: int, link: int, root: int, q: seq<int>) {
    Callable(s, root, q) && Linked(s.mem, cr3, link, root) && IsRoot(s.own, cr3)
  }

  lemma Down1(s: Vm, cr3: int, link: int, root: int, q: seq<int>, prop: PageProperties, s1: Vm)
    requires Begun(s, cr3, link, root, q) && s1 == Nest1(s, root, q, prop)
    ensures Begun(s1, cr3, link, root, q) && Spares(s, s1) && Inside(s, s1)
    ensures var pdpt := Child(s1, root, q[0]);
            && s1.mem(Cell(root, q[0])).present && pdpt in s1.own && s1.own[pdpt] == Place(root, [q[0]])
            && TableAt(s1.mem, cr3, [ACTIVE, ACTIVE, link, q[0]]) == Some(pdpt)
            && (s1.mem(Cell(pdpt, q[1])).present || s1.frames != [])
  {
    PathParts(q);
    Nest1Keeps(s, root, q, prop);
    CreateSpares(s, root, [], root, q[0], prop);
    StillLinked(s, s1, cr3, link, root);
    RecursiveWalk(s1.mem, cr3, link, root, q);
    assert TableOk(s1.mem, s1.own, Child(s1, root, q[0]));
  }

  lemma Down2(s1: Vm, cr3: int, link: int, root: int, q: seq<int>, prop: PageProperties, pdpt: int, s2: Vm)
    requires Begun(s1, cr3, link, root, q) && s2 == GetOrCreate(s1, pdpt, q[1], prop)
    requires s1.mem(Cell(root, q[0])).present && pdpt == Child(s1, root, q[0]) && pdpt in s1.own
    requires s1.own[pdpt] == Place(root, [q[0]])
    ensures Begun(s2, cr3, link, root, q) && Spares(s1, s2) && Inside(s1, s2)
    ensures var pd := Child(s2, pdpt, q[1]);
            && s2.mem(Cell(root, q[0])) == s1.mem(Cell(root, q[0]))
            && pdpt in s2.own && s2.own[pdpt] == Place(root, [q[0]])
            && s2.mem(Cell(pdpt, q[1])).present && pd in s2.own && s2.own[pd] == Place(root, [q[0], q[1]])
            && TableAt(s2.mem, cr3, [ACTIVE, link, q[0], q[1]]) == Some(pd)
            && (s2.mem(Cell(pd, q[2])).present || s2.frames != [])
  {
    PathParts(q);
    Nest2Keeps(s1, root, q, prop);
    CreateSpares(s1, root, [q[0]], pdpt, q[1], prop);
    StillLinked(s1, s2, cr3, link, root);
    RecursiveWalk(s2.mem, cr3, link, root, q);
    assert TableOk(s2.mem, s2.own, Child(s2, pdpt, q[1]));
  }

  lemma Down3(s2: Vm, cr3: int, link: int, root: int, q: seq<int>, prop: PageProperties, pdpt: int, pd: int, s3: Vm)
    requires Begun(s2, cr3, link, root, q) && s3 == GetOrCreate(s2, pd, q[2], prop)
    requires s2.mem(Cell(root, q[0])).present && pdpt == Child(s2, root, q[0]) && pdpt in s2.own
    requires s2.own[pdpt] == Place(root, [q[0]])
    requires s2.mem(Cell(pdpt, q[1])).present && pd == Child(s2, pdpt, q[1]) && pd in s2.own
    requires s2.own[pd] == Place(root, [q[0], q[1]])
    ensures Sound(s3) && Chain(s3, root, q, pdpt, pd, Child(s3, pd, q[2])) && Spares(s2, s3) && Inside(s2, s3)
    ensures Seen(s3, cr3, link, root, q, pdpt, pd, Child(s3, pd, q[2]))
  {
    PathParts(q);
    Nest3Keeps(s2, root, q, prop, pdpt, pd);
    CreateSpares(s2, root, [q[0], q[1]], pd, q[2], prop);
    StillLinked(s2, s3, cr3, link, root);
    ChainSeen(s3, cr3, link, root, q, pdpt, pd, Child(s3, pd, q[2]));
  }

  /** The four recursive addresses reach the root and the three tables. */
  ghost predicate Seen(s: Vm, cr3: int, link: int, root: int, q: seq<int>, pdpt: int, pd: int, pt: int)
    requires |q| == 4
  {
    && Linked(s.mem, cr3, link, root)
    && TableAt(s.mem, cr3, [ACTIVE, ACTIVE, ACTIVE, link]) == Some(root)
    && TableAt(s.mem, cr3, [ACTIVE, ACTIVE, link, q[0]]) == Some(pdpt)
    && TableAt(s.mem, cr3, [ACTIVE, link, q[0], q[1]]) == Some(pd)
    && TableAt(s.mem, cr3, [link, q[0], q[1], q[2]]) == Some(pt)
  }

  lemma ChainSeen(s: Vm, cr3: int, link: int, root: int, q: seq<int>, pdpt: int, pd: int, pt: int)
    requires WF(s.mem, s.own) && Chain(s, root, q, pdpt, pd, pt) && Linked(s.mem, cr3, link, root)
    ensures Seen(s, cr3, link, root, q, pdpt, pd, pt)
  {
    RecursiveWalk(s.mem, cr3, link, root, q);
    assert TableOk(s.mem, s.own, pdpt) && TableOk(s.mem, s.own, pd) && TableOk(s.mem, s.own, pt);
  }

  // ----- Steps of the pruning ----------------------------------------------------------------------

  lemma Up1(s4: Vm, cr3: int, link: int, root: int, q: seq<int>, pdpt: int, pd: int, pt: int, s5: Vm)
    requires Sound(s4) && Chain(s4, root, q, pdpt, pd, pt) && Linked(s4.mem, cr3, link, root) && IsRoot(s4.own, cr3)
    requires s5 == Prune(s4, pd, q[2])
    ensures Sound(s5) && Linked(s5.mem, cr3, link, root) && Spares(s4, s5) && Inside(s4, s5)
    ensures IsRoot(s5.own, root) && pdpt in s5.own && s5.own[pdpt] == Place(root, [q[0]])
    ensures pd in s5.own && s5.own[pd] == Place(root, [q[0], q[1]])
    ensures s5.mem(Cell(pdpt, q[1])) == s4.mem(Cell(pdpt, q[1])) && s5.mem(Cell(root, q[0])) == s4.mem(Cell(root, q[0]))
    ensures TableAt(s5.mem, cr3, [ACTIVE, ACTIVE, ACTIVE, link]) == Some(root)
    ensures TableAt(s5.mem, cr3, [ACTIVE, ACTIVE, link, q[0]]) == Some(pdpt)
    ensures TableAt(s5.mem, cr3, [ACTIVE, link, q[0], q[1]]) == Some(pd)
  {
    PathParts(q);
    PruneKeeps(s4, pd, q[2]);
    PruneSpares(s4, pd, q[2]);
    StillLinked(s4, s5, cr3, link, root);
    RecursiveWalk(s5.mem, cr3, link, root, q);
    assert TableOk(s5.mem, s5.own, pdpt) && TableOk(s5.mem, s5.own, pd);
  }

  lemma Up2(s5: Vm, cr3: int, link: int, root: int, q: seq<int>, pdpt: int, pd: int, s6: Vm)
    requires Sound(s5) && IsPage(q) && IsRoot(s5.own, root) && Linked(s5.mem, cr3, link, root) && IsRoot(s5.own, cr3)
    requires pdpt in s5.own && s5.own[pdpt] == Place(root, [q[0]])
    requires s5.mem(Cell(pdpt, q[1])).present && Child(s5, pdpt, q[1]) == pd
    requires s6 == Prune(s5, pdpt, q[1])
    ensures Sound(s6) && Linked(s6.mem, cr3, link, root) && Spares(s5, s6) && Inside(s5, s6)
    ensures IsRoot(s6.own, root) && pdpt in s6.own && s6.own[pdpt] == Place(root, [q[0]])
    ensures s6.mem(Cell(root, q[0])) == s5.mem(Cell(root, q[0]))
    ensures TableAt(s6.mem, cr3, [ACTIVE, ACTIVE, ACTIVE, link]) == Some(root)
    ensures TableAt(s6.mem, cr3, [ACTIVE, ACTIVE, link, q[0]]) == Some(pdpt)
  {
    PathParts(q);
    PruneKeeps(s5, pdpt, q[1]);
    PruneSpares(s5, pdpt, q[1]);
    StillLinked(s5, s6, cr3, link, root);
    RecursiveWalk(s6.mem, cr3, link, root, q);
    assert TableOk(s6.mem, s6.own, pdpt);
  }

  lemma Up3(s6: Vm, cr3: int, link: int, root: int, q: seq<int>, s7: Vm)
    requires Sound(s6) && IsPage(q) && IsRoot(s6.own, root) && Linked(s6.mem, cr3, link, root) && IsRoot(s6.own, cr3)
    requires s6.mem(Cell(root, q[0])).present && s7 == Prune(s6, root, q[0])
    ensures Sound(s7) && Linked(s7.mem, cr3, link, root) && Spares(s6, s7) && Inside(s6, s7)
  {
    PathParts(q);
    PruneKeeps(s6, root, q[0]);
    PruneSpares(s6, root, q[0]);
    StillLinked(s6, s7, cr3, link, root);
  }

  // ----- Another root behind slot 509 --------------------------------------------------------------

  /** As `Spares`, but for one cell. */
  ghost predicate SparesBut(s: Vm, s': Vm, k: Cell) {
    && (forall c: Cell | c.frame !in s.own && c.frame !in s.frames && c != k :: s'.mem(c) == s.mem(c))
    && (forall r, i | IsRoot(s.own, r) && i >= 256 && Cell(r, i) != k :: s'.mem(Cell(r, i)) == s.mem(Cell(r, i)))
  }

  ghost function WithSlot(s: Vm, cr3: int, e: Pte): Vm { s.(mem := Write(s.mem, Cell(cr3, OTHER), e)) }

  /** Opening the slot for `root` keeps the state and lets a call through it begin. */
  lemma SlotOpens(s: Vm, cr3: int, root: int, q: seq<int>, prop: PageProperties)
    requires Callable(s, root, q) && IsRoot(s.own, cr3) && Next(s.mem, cr3, ACTIVE) == Some(cr3)
    ensures var s0 := WithSlot(s, cr3, Pte(true, root, prop));
            Begun(s0, cr3, OTHER, root, q) && SamePages(s, s0) && (NoEmptyTable(s) ==> NoEmptyTable(s0))
  {
    SlotWrite(s, cr3, OTHER, Pte(true, root, prop));
    PathParts(q);
    assert EntryOk(s.mem, s.own, root, q[0]);
    var pdpt := s.mem(Cell(root, q[0])).frame;
    assert EntryOk(s.mem, s.own, pdpt, q[1]);
  }

  /** Closing it again. */
  lemma SlotCloses(s: Vm, s0: Vm, s1: Vm, s2: Vm, cr3: int, e: Pte, root: int, q: seq<int>, to: Option<int>)
    requires Sound(s) && IsRoot(s.own, cr3) && s0 == WithSlot(s, cr3, e) && SamePages(s, s0)
    requires Sound(s1) && Updates(s0, s1, root, q, to) && Spares(s0, s1) && s2 == WithSlot(s1, cr3, EMPTY)
    ensures Sound(s2) && Updates(s, s2, root, q, to) && SparesBut(s, s2, Cell(cr3, OTHER))
    ensures NoEmptyTable(s1) ==> NoEmptyTable(s2)
    ensures Next(s2.mem, cr3, ACTIVE) == Next(s.mem, cr3, ACTIVE) && IsRoot(s2.own, cr3)
  {
    assert IsRoot(s1.own, cr3);
    SlotWrite(s1, cr3, OTHER, EMPTY);
    forall r', q' | IsRoot(s.own, r') && IsPage(q')
      ensures TableAt(s2.mem, r', q') == if r' == root && q' == q then to else TableAt(s.mem, r', q')
    {
      assert IsRoot(s0.own, r') && IsRoot(s1.own, r');
    }
  }

  ghost predicate Outside(s: Vm, r: int, p: seq<int>) {
    forall n | 1 <= n < |p| :: TableAt(s.mem, r, p[..n]).Some? ==>
      TableAt(s.mem, r, p[..n]).value !in s.own && TableAt(s.mem, r, p[..n]).value !in s.frames
  }

  /** Main result: a walk into the kernel half, through tables that belong to no user tree, is not changed. */
  lemma {:induction false} KernelWalkKept(s: Vm, s': Vm, k: Cell, r: int, p: seq<int>)
    requires SparesBut(s, s', k) && IsRoot(s.own, r) && p != [] && p[0] >= 256 && Cell(r, p[0]) != k && Outside(s, r, p)
    requires IsRoot(s.own, k.frame)
    ensures TableAt(s'.mem, r, p) == TableAt(s.mem, r, p)
    decreases |p|
  {
    var n := |p| - 1;
    if n == 0 {
      assert p[..0] == [];
    } else {
      assert forall j | 1 <= j < n :: p[..n][..j] == p[..j];
      KernelWalkKept(s, s', k, r, p[..n]);
    }
  }
}
