/**
  Four-level page tables as a tree of frames. A table is named by its root and the indices that lead to
  it; a page by its root and four indices. Everything is about the half of an address space below
  index 256 of the root, which each root has for itself.

  The ghost map `own` says for every table frame which table it is. `WF` is that the frames form such a
  tree; with it, one written entry changes exactly the walks that pass through it.
 */
module PageTables {
  import opened Common
  import opened PagingBits

  datatype Cell = Cell(frame: int, index: int)

  type Memory = Cell -> Pte

  const EMPTY := Pte(false, 0, PageProperties(false, false, false))

  function Write(m: Memory, k: Cell, e: Pte): Memory { (c: Cell) => if c == k then e else m(c) }

  function Zero(m: Memory, f: int): Memory { (c: Cell) => if c.frame == f then EMPTY else m(c) }

  // ----- Walks -------------------------------------------------------------------------------------

  function Next(m: Memory, f: int, i: int): Option<int> {
    if m(Cell(f, i)).present then Some(m(Cell(f, i)).frame) else None
  }

  /** The frame a walk from `root` along the indices `p` arrives at. */
  function TableAt(m: Memory, root: int, p: seq<int>): Option<int> {
    if p == [] then Some(root)
    else match TableAt(m, root, p[..|p| - 1])
      case None => None
      case Some(t) => Next(m, t, p[|p| - 1])
  }

  ghost predicate UserPath(p: seq<int>) {
    && (forall j | 0 <= j < |p| :: 0 <= p[j] < 512)
    && (p != [] ==> p[0] < 256)
  }

  /** The translation of a user page: the frame it is mapped to, if it is mapped. */
  ghost predicate IsPage(q: seq<int>) { |q| == 4 && UserPath(q) }

  // ----- Trees -------------------------------------------------------------------------------------

  datatype Place = Place(root: int, prefix: seq<int>)

  type Owners = map<int, Place>

  ghost predicate IsRoot(own: Owners, r: int) { r in own && own[r] == Place(r, []) }

  ghost predicate EntryOk(m: Memory, own: Owners, f: int, i: int) {
    f in own && |own[f].prefix| < 3 && UserPath(own[f].prefix + [i]) && m(Cell(f, i)).present ==>
      m(Cell(f, i)).frame in own && own[m(Cell(f, i)).frame] == Place(own[f].root, own[f].prefix + [i])
  }

  ghost predicate TableOk(m: Memory, own: Owners, f: int) {
    f in own ==>
      && |own[f].prefix| <= 3 && UserPath(own[f].prefix) && IsRoot(own, own[f].root)
      && TableAt(m, own[f].root, own[f].prefix) == Some(f)
  }

  ghost predicate WF(m: Memory, own: Owners) {
    && (forall f, i :: EntryOk(m, own, f, i))
    && (forall f :: TableOk(m, own, f))
  }

  lemma UserPrefix(p: seq<int>, n: int)
    requires UserPath(p) && 0 <= n <= |p|
    ensures UserPath(p[..n])
  {
  }

  lemma {:induction false} WalkOwned(m: Memory, own: Owners, r: int, p: seq<int>)
    requires WF(m, own) && IsRoot(own, r) && |p| <= 3 && UserPath(p) && TableAt(m, r, p).Some?
    ensures TableAt(m, r, p).value in own && own[TableAt(m, r, p).value] == Place(r, p)
    decreases |p|
  {
    if p != [] {
      var n := |p| - 1;
      UserPrefix(p, n);
      WalkOwned(m, own, r, p[..n]);
      var t := TableAt(m, r, p[..n]).value;
      assert p[..n] + [p[n]] == p;
      assert EntryOk(m, own, t, p[n]);
    }
  }

  /** `m'` agrees with `m` on every owned frame but for one cell. */
  ghost predicate Agrees(m: Memory, m': Memory, own: Owners, f: int, i: int) {
    forall c: Cell | c.frame in own && c != Cell(f, i) :: m'(c) == m(c)
  }

  ghost predicate Through(own: Owners, f: int, i: int, r: int, p: seq<int>) {
    f in own && own[f].root == r && own[f].prefix + [i] <= p
  }

  /** One written entry leaves every walk that does not pass through it as it was. */
  lemma {:induction false} WalkKept(m: Memory, m': Memory, own: Owners, r: int, p: seq<int>, f: int, i: int)
    requires WF(m, own) && IsRoot(own, r) && |p| <= 4 && UserPath(p)
    requires Agrees(m, m', own, f, i) && !Through(own, f, i, r, p)
    ensures TableAt(m', r, p) == TableAt(m, r, p)
    decreases |p|
  {
    if p != [] {
      var n := |p| - 1;
      UserPrefix(p, n);
      assert p[..n] <= p;
      WalkKept(m, m', own, r, p[..n], f, i);
      if TableAt(m, r, p[..n]).Some? {
        WalkOwned(m, own, r, p[..n]);
        var t := TableAt(m, r, p[..n]).value;
        assert p[..n] + [p[n]] == p;
        assert Cell(t, p[n]) != Cell(f, i);
      }
    }
  }

  /** Nothing lies below an entry that is not present. */
  lemma {:induction false} NothingBelow(m: Memory, r: int, p: seq<int>, q: seq<int>)
    requires TableAt(m, r, p) == None && p <= q
    ensures TableAt(m, r, q) == None
    decreases |q|
  {
    if q != p {
      var n := |q| - 1;
      assert p == q[..n][..|p|];
      NothingBelow(m, r, p, q[..n]);
    }
  }

  // ----- A new table -------------------------------------------------------------------------------

  /** The entry `i` of table `f` made to point to a new, empty table in frame `g`. */
  function Create(m: Memory, f: int, i: int, g: int, prop: PageProperties): Memory {
    Zero(Write(m, Cell(f, i), Pte(true, g, prop)), g)
  }

  ghost function OwnNew(own: Owners, f: int, i: int, g: int): Owners
    requires f in own
  {
    own[g := Place(own[f].root, own[f].prefix + [i])]
  }

  /** A table that can get a new one below its entry `i`. */
  ghost predicate CanCreate(m: Memory, own: Owners, f: int, i: int, g: int) {
    && WF(m, own) && f in own && |own[f].prefix| < 3 && UserPath(own[f].prefix + [i])
    && !m(Cell(f, i)).present && g !in own
  }

  lemma CreateWalks(m: Memory, own: Owners, f: int, i: int, g: int, prop: PageProperties, r: int, p: seq<int>)
    requires CanCreate(m, own, f, i, g) && IsRoot(own, r) && |p| <= 4 && UserPath(p)
    ensures TableAt(Create(m, f, i, g, prop), r, p)
         == if r == own[f].root && p == own[f].prefix + [i] then Some(g) else TableAt(m, r, p)
  {
    var m' := Create(m, f, i, g, prop);
    if !Through(own, f, i, r, p) {
      WalkKept(m, m', own, r, p, f, i);
    } else {
      var below := own[f].prefix + [i];
      CreateLeads(m, own, f, i, g, prop);
      CreateFree(m, own, f, i);
      NothingBelow(m, r, below, p);
      if p != below {
        var next := p[..|below| + 1];
        assert next[..|below|] == below;
        assert TableAt(m', r, next) == None;
        NothingBelow(m', r, next, p);
      }
    }
  }

  lemma CreateLeads(m: Memory, own: Owners, f: int, i: int, g: int, prop: PageProperties)
    requires CanCreate(m, own, f, i, g)
    ensures TableAt(Create(m, f, i, g, prop), own[f].root, own[f].prefix + [i]) == Some(g)
  {
    assert TableOk(m, own, f);
    var below := own[f].prefix + [i];
    assert below[..|below| - 1] == own[f].prefix;
    WalkKept(m, Create(m, f, i, g, prop), own, own[f].root, own[f].prefix, f, i);
  }

  lemma CreateKeepsWF(m: Memory, own: Owners, f: int, i: int, g: int, prop: PageProperties)
    requires CanCreate(m, own, f, i, g)
    ensures WF(Create(m, f, i, g, prop), OwnNew(own, f, i, g))
  {
    var m', own' := Create(m, f, i, g, prop), OwnNew(own, f, i, g);
    forall a, j ensures EntryOk(m', own', a, j) {
      assert EntryOk(m, own, a, j);
    }
    forall a ensures TableOk(m', own', a) {
      assert TableOk(m, own, a) && TableOk(m, own, f);
      if a == g {
        CreateWalks(m, own, f, i, g, prop, own[f].root, own[f].prefix + [i]);
      } else if a in own {
        CreateWalks(m, own, f, i, g, prop, own[a].root, own[a].prefix);
        if own[a] == Place(own[f].root, own[f].prefix + [i]) { CreateFree(m, own, f, i); }
      }
    }
  }

  lemma CreateFree(m: Memory, own: Owners, f: int, i: int)
    requires WF(m, own) && f in own && !m(Cell(f, i)).present
    ensures TableAt(m, own[f].root, own[f].prefix + [i]) == None
  {
    assert TableOk(m, own, f);
    var below := own[f].prefix + [i];
    assert below[..|below| - 1] == own[f].prefix;
  }

  /** A new table changes no page's translation. */
  lemma CreateKeepsPages(m: Memory, own: Owners, f: int, i: int, g: int, prop: PageProperties, r: int, q: seq<int>)
    requires CanCreate(m, own, f, i, g) && IsRoot(own, r) && IsPage(q)
    ensures TableAt(Create(m, f, i, g, prop), r, q) == TableAt(m, r, q)
  {
    CreateWalks(m, own, f, i, g, prop, r, q);
  }

  // ----- A page's entry ----------------------------------------------------------------------------

  /** Writing entry `i` of a last-level table changes the translation of one page. */
  lemma SetPage(m: Memory, own: Owners, f: int, i: int, e: Pte, r: int, q: seq<int>)
    requires WF(m, own) && f in own && |own[f].prefix| == 3 && IsRoot(own, r) && IsPage(q)
    ensures TableAt(Write(m, Cell(f, i), e), r, q)
         == if r == own[f].root && q == own[f].prefix + [i] then (if e.present then Some(e.frame) else None)
            else TableAt(m, r, q)
  {
    var m' := Write(m, Cell(f, i), e);
    if r == own[f].root && q == own[f].prefix + [i] {
      assert TableOk(m, own, f);
      assert q[..3] == own[f].prefix;
      UserPrefix(q, 3);
      WalkKept(m, m', own, r, q[..3], f, i);
    } else {
      if own[f].prefix + [i] <= q { assert q == own[f].prefix + [i]; }
      WalkKept(m, m', own, r, q, f, i);
    }
  }

  lemma SetPageKeepsWF(m: Memory, own: Owners, f: int, i: int, e: Pte)
    requires WF(m, own) && f in own && |own[f].prefix| == 3
    ensures WF(Write(m, Cell(f, i), e), own)
  {
    var m' := Write(m, Cell(f, i), e);
    forall a, j ensures EntryOk(m', own, a, j) { assert EntryOk(m, own, a, j); }
    forall a ensures TableOk(m', own, a) {
      assert TableOk(m, own, a);
      if a in own { WalkKept(m, m', own, own[a].root, own[a].prefix, f, i); }
    }
  }

  // ----- An empty table removed --------------------------------------------------------------------

  ghost predicate IsEmpty(m: Memory, f: int) {
    forall i | 0 <= i < 512 :: !m(Cell(f, i)).present
  }

  function Clear(m: Memory, f: int, i: int): Memory {
    Write(m, Cell(f, i), m(Cell(f, i)).(present := false))
  }

  /** Table `g` is empty, and entry `i` of table `f` leads to it. */
  ghost predicate CanPrune(m: Memory, own: Owners, f: int, i: int, g: int) {
    && WF(m, own) && f in own && |own[f].prefix| < 3 && UserPath(own[f].prefix + [i])
    && m(Cell(f, i)) == Pte(true, g, m(Cell(f, i)).prop) && IsEmpty(m, g)
  }

  lemma Pruned(m: Memory, own: Owners, f: int, i: int, g: int)
    requires CanPrune(m, own, f, i, g)
    ensures g in own && own[g] == Place(own[f].root, own[f].prefix + [i])
    ensures TableAt(m, own[f].root, own[f].prefix + [i]) == Some(g)
    ensures TableAt(Clear(m, f, i), own[f].root, own[f].prefix + [i]) == None
  {
    assert EntryOk(m, own, f, i) && TableOk(m, own, f) && TableOk(m, own, g);
    var below := own[f].prefix + [i];
    assert below[..|below| - 1] == own[f].prefix;
    WalkKept(m, Clear(m, f, i), own, own[f].root, own[f].prefix, f, i);
  }

  lemma PruneWalks(m: Memory, own: Owners, f: int, i: int, g: int, r: int, p: seq<int>)
    requires CanPrune(m, own, f, i, g) && IsRoot(own, r) && |p| <= 4 && UserPath(p)
    ensures TableAt(Clear(m, f, i), r, p)
         == if r == own[f].root && p == own[f].prefix + [i] then None else TableAt(m, r, p)
  {
    var m', below := Clear(m, f, i), own[f].prefix + [i];
    Pruned(m, own, f, i, g);
    if !Through(own, f, i, r, p) {
      WalkKept(m, m', own, r, p, f, i);
    } else {
      NothingBelow(m', r, below, p);
      if p != below {
        var next := p[..|below| + 1];
        assert next[..|below|] == below;
        assert TableAt(m, r, next) == None;
        NothingBelow(m, r, next, p);
      }
    }
  }

  lemma PruneKeepsWF(m: Memory, own: Owners, f: int, i: int, g: int)
    requires CanPrune(m, own, f, i, g)
    ensures WF(Clear(m, f, i), own - {g})
  {
    var m', own' := Clear(m, f, i), own - {g};
    Pruned(m, own, f, i, g);
    assert TableOk(m, own, f) && TableOk(m, own, g);
    forall a, j ensures EntryOk(m', own', a, j) {
      assert EntryOk(m, own, a, j);
      if a in own && m(Cell(a, j)).frame == g && own[a].prefix + [j] == own[f].prefix + [i] {
        SamePrefix(own[a].prefix, own[f].prefix, j, i);
        assert TableOk(m, own, a);
      }
    }
    forall a ensures TableOk(m', own', a) {
      assert TableOk(m, own, a);
      if a in own' { PruneWalks(m, own, f, i, g, own[a].root, own[a].prefix); }
    }
  }

  lemma SamePrefix(a: seq<int>, b: seq<int>, i: int, j: int)
    requires a + [i] == b + [j]
    ensures a == b && i == j
  {
    assert (a + [i])[..|a|] == a && (b + [j])[..|b|] == b;
    assert (a + [i])[|a|] == i;
  }

  lemma PruneKeepsPages(m: Memory, own: Owners, f: int, i: int, g: int, r: int, q: seq<int>)
    requires CanPrune(m, own, f, i, g) && IsRoot(own, r) && IsPage(q)
    ensures TableAt(Clear(m, f, i), r, q) == TableAt(m, r, q)
  {
    PruneWalks(m, own, f, i, g, r, q);
  }

  // ----- Mapping -----------------------------------------------------------------------------------

  /** Memory, who is which table, and the frames the physical allocator will hand out during a call. */
  datatype Vm = Vm(mem: Memory, own: Owners, frames: seq<int>)

  ghost predicate FramesOk(s: Vm) {
    && (forall j | 0 <= j < |s.frames| :: s.frames[j] !in s.own)
    && (forall j, k | 0 <= j < k < |s.frames| :: s.frames[j] != s.frames[k])
  }

  ghost predicate Sound(s: Vm) { WF(s.mem, s.own) && FramesOk(s) }

  function Child(s: Vm, f: int, i: int): int { s.mem(Cell(f, i)).frame }

  ghost function GetOrCreate(s: Vm, f: int, i: int, prop: PageProperties): Vm {
    if s.mem(Cell(f, i)).present || s.frames == [] || f !in s.own then s
    else Vm(Create(s.mem, f, i, s.frames[0], prop), OwnNew(s.own, f, i, s.frames[0]), s.frames[1..])
  }

  ghost predicate SamePages(s: Vm, s': Vm) {
    && (forall r :: IsRoot(s.own, r) <==> IsRoot(s'.own, r))
    && (forall r, q | IsRoot(s.own, r) && IsPage(q) :: TableAt(s'.mem, r, q) == TableAt(s.mem, r, q))
  }

  /** `s'` has every table of `s`, and perhaps some more, taken from the handed-out frames. */
  ghost predicate Extends(s: Vm, s': Vm) {
    && s.own.Keys <= s'.own.Keys && (forall f | f in s.own :: s'.own[f] == s.own[f])
    && |s'.frames| <= |s.frames| && s'.frames == s.frames[|s.frames| - |s'.frames|..]
    && (forall f | f in s'.own && f !in s.own :: f in s.frames)
  }

  /** Table `f` is the one at `(r, p)`, and entry `i` of it can be followed or filled. */
  ghost predicate Ready(s: Vm, r: int, p: seq<int>, f: int, i: int) {
    && Sound(s) && f in s.own && s.own[f] == Place(r, p) && |p| < 3 && UserPath(p + [i])
    && (s.mem(Cell(f, i)).present || s.frames != [])
  }

  lemma GetOrCreateKeeps(s: Vm, r: int, p: seq<int>, f: int, i: int, prop: PageProperties)
    requires Ready(s, r, p, f, i)
    ensures var s' := GetOrCreate(s, f, i, prop);
            && Sound(s') && SamePages(s, s') && Extends(s, s')
            && s'.mem(Cell(f, i)).present && Child(s', f, i) in s'.own && s'.own[Child(s', f, i)] == Place(r, p + [i])
            && |s'.frames| >= |s.frames| - 1
  {
    var s' := GetOrCreate(s, f, i, prop);
    if s.mem(Cell(f, i)).present {
      assert EntryOk(s.mem, s.own, f, i);
    } else {
      var g := s.frames[0];
      CreateKeepsWF(s.mem, s.own, f, i, g, prop);
      forall r', q | IsRoot(s.own, r') && IsPage(q) ensures TableAt(s'.mem, r', q) == TableAt(s.mem, r', q) {
        CreateKeepsPages(s.mem, s.own, f, i, g, prop, r', q);
      }
      assert TableOk(s.mem, s.own, f);
      NewIsNoRoot(s.own, f, i, g);
    }
  }

  lemma NewIsNoRoot(own: Owners, f: int, i: int, g: int)
    requires f in own && g !in own
    ensures forall r :: IsRoot(own, r) <==> IsRoot(OwnNew(own, f, i, g), r)
  {
    assert own[f].prefix + [i] != [];
  }

  /** vmm_get_most_nested_table over plain frames: the last-level table for page `q`, with the tables on
      the way made if they are missing. */
  ghost function Nest1(s: Vm, r: int, q: seq<int>, prop: PageProperties): Vm
    requires |q| == 4
  {
    GetOrCreate(s, r, q[0], prop)
  }

  ghost function Nest2(s: Vm, r: int, q: seq<int>, prop: PageProperties): Vm
    requires |q| == 4
  {
    var s1 := Nest1(s, r, q, prop);
    GetOrCreate(s1, Child(s1, r, q[0]), q[1], prop)
  }

  ghost function Nest(s: Vm, r: int, q: seq<int>, prop: PageProperties): Vm
    requires |q| == 4
  {
    var s2 := Nest2(s, r, q, prop);
    GetOrCreate(s2, Child(s2, Child(s2, r, q[0]), q[1]), q[2], prop)
  }

  /** The tables on the way to page `q`. */
  ghost predicate Chain(s: Vm, r: int, q: seq<int>, pdpt: int, pd: int, pt: int) {
    && IsPage(q) && IsRoot(s.own, r)
    && s.mem(Cell(r, q[0])).present && Child(s, r, q[0]) == pdpt
    && s.mem(Cell(pdpt, q[1])).present && Child(s, pdpt, q[1]) == pd
    && s.mem(Cell(pd, q[2])).present && Child(s, pd, q[2]) == pt
    && pdpt in s.own && s.own[pdpt] == Place(r, [q[0]])
    && pd in s.own && s.own[pd] == Place(r, [q[0], q[1]])
    && pt in s.own && s.own[pt] == Place(r, [q[0], q[1], q[2]])
  }

  /** How many tables are missing on the way to page `q`. */
  ghost function Missing(m: Memory, r: int, q: seq<int>): nat
    requires |q| == 4
  {
    if !m(Cell(r, q[0])).present then 3
    else var pdpt := m(Cell(r, q[0])).frame;
    if !m(Cell(pdpt, q[1])).present then 2
    else var pd := m(Cell(pdpt, q[1])).frame;
    if !m(Cell(pd, q[2])).present then 1 else 0
  }

  /** A call for page `q` of root `r` can begin: there are enough frames for the missing tables. */
  ghost predicate Callable(s: Vm, r: int, q: seq<int>) {
    Sound(s) && IsRoot(s.own, r) && IsPage(q) && |s.frames| >= Missing(s.mem, r, q)
  }

  lemma CellKept(s: Vm, f: int, i: int, prop: PageProperties, c: Cell)
    requires FramesOk(s) && c.frame in s.own && c != Cell(f, i)
    ensures GetOrCreate(s, f, i, prop).mem(c) == s.mem(c)
  {
  }

  lemma NewIsEmpty(s: Vm, f: int, i: int, prop: PageProperties, j: int)
    requires FramesOk(s) && f in s.own && !s.mem(Cell(f, i)).present && s.frames != []
    ensures var s' := GetOrCreate(s, f, i, prop);
            Child(s', f, i) == s.frames[0] && !s'.mem(Cell(s.frames[0], j)).present && |s'.frames| == |s.frames| - 1
  {
  }

  lemma Chained(s: Vm, s': Vm, s'': Vm)
    requires SamePages(s, s') && SamePages(s', s'') && Extends(s, s') && Extends(s', s'')
    ensures SamePages(s, s'') && Extends(s, s'')
  {
    forall r, q | IsRoot(s.own, r) && IsPage(q) ensures TableAt(s''.mem, r, q) == TableAt(s.mem, r, q) {
      assert IsRoot(s'.own, r);
    }
  }

  lemma PathParts(q: seq<int>)
    requires IsPage(q)
    ensures UserPath([] + [q[0]]) && UserPath([q[0]] + [q[1]]) && UserPath([q[0], q[1]] + [q[2]])
    ensures [] + [q[0]] == [q[0]] && [q[0]] + [q[1]] == [q[0], q[1]] && [q[0], q[1]] + [q[2]] == [q[0], q[1], q[2]]
    ensures [q[0], q[1], q[2]] + [q[3]] == q && q[..3] == [q[0], q[1], q[2]]
  {
  }

  lemma Nest1Keeps(s: Vm, r: int, q: seq<int>, prop: PageProperties)
    requires Callable(s, r, q)
    ensures var s1 := Nest1(s, r, q, prop); var pdpt := Child(s1, r, q[0]);
            && Sound(s1) && SamePages(s, s1) && Extends(s, s1)
            && s1.mem(Cell(r, q[0])).present && pdpt in s1.own && s1.own[pdpt] == Place(r, [q[0]])
            && |s1.frames| >= Missing(s1.mem, r, q)
  {
    PathParts(q);
    GetOrCreateKeeps(s, r, [], r, q[0], prop);
    if !s.mem(Cell(r, q[0])).present { NewIsEmpty(s, r, q[0], prop, q[1]); }
  }

  lemma Nest2Keeps(s1: Vm, r: int, q: seq<int>, prop: PageProperties)
    requires Callable(s1, r, q)
    requires var pdpt := Child(s1, r, q[0]);
             s1.mem(Cell(r, q[0])).present && pdpt in s1.own && s1.own[pdpt] == Place(r, [q[0]])
    ensures var pdpt := Child(s1, r, q[0]); var s2 := GetOrCreate(s1, pdpt, q[1], prop);
      var pd := Child(s2, pdpt, q[1]);
            && Sound(s2) && SamePages(s1, s2) && Extends(s1, s2)
            && s2.mem(Cell(r, q[0])) == s1.mem(Cell(r, q[0]))
            && s2.mem(Cell(pdpt, q[1])).present && pd in s2.own && s2.own[pd] == Place(r, [q[0], q[1]])
            && |s2.frames| >= Missing(s2.mem, r, q)
  {
    PathParts(q);
    var pdpt := Child(s1, r, q[0]);
    GetOrCreateKeeps(s1, r, [q[0]], pdpt, q[1], prop);
    CellKept(s1, pdpt, q[1], prop, Cell(r, q[0]));
    if !s1.mem(Cell(pdpt, q[1])).present { NewIsEmpty(s1, pdpt, q[1], prop, q[2]); }
  }

  lemma Nest3Keeps(s2: Vm, r: int, q: seq<int>, prop: PageProperties, pdpt: int, pd: int)
    requires Callable(s2, r, q)
    requires s2.mem(Cell(r, q[0])).present && Child(s2, r, q[0]) == pdpt
    requires s2.mem(Cell(pdpt, q[1])).present && Child(s2, pdpt, q[1]) == pd
    requires pdpt in s2.own && s2.own[pdpt] == Place(r, [q[0]]) && pd in s2.own && s2.own[pd] == Place(r, [q[0], q[1]])
    ensures var s3 := GetOrCreate(s2, pd, q[2], prop);
            Sound(s3) && SamePages(s2, s3) && Extends(s2, s3) && Chain(s3, r, q, pdpt, pd, Child(s3, pd, q[2]))
  {
    PathParts(q);
    GetOrCreateKeeps(s2, r, [q[0], q[1]], pd, q[2], prop);
    CellKept(s2, pd, q[2], prop, Cell(r, q[0]));
    CellKept(s2, pd, q[2], prop, Cell(pdpt, q[1]));
  }

  /** The frame of the last-level table after `Nest`. */
  ghost function Leaf(s: Vm, r: int, q: seq<int>): int
    requires |q| == 4
  {
    Child(s, Child(s, Child(s, r, q[0]), q[1]), q[2])
  }

  lemma NestKeeps(s: Vm, r: int, q: seq<int>, prop: PageProperties)
    requires Callable(s, r, q)
    ensures var s3 := Nest(s, r, q, prop);
            && Sound(s3) && SamePages(s, s3) && Extends(s, s3)
            && Chain(s3, r, q, Child(s3, r, q[0]), Child(s3, Child(s3, r, q[0]), q[1]), Leaf(s3, r, q))
  {
    var s1, s2, s3 := Nest1(s, r, q, prop), Nest2(s, r, q, prop), Nest(s, r, q, prop);
    Nest1Keeps(s, r, q, prop);
    Nest2Keeps(s1, r, q, prop);
    Nest3Keeps(s2, r, q, prop, Child(s2, r, q[0]), Child(s2, Child(s2, r, q[0]), q[1]));
    Chained(s, s1, s2);
    Chained(s, s2, s3);
  }

  /** The properties of the tables above a page: always writable, otherwise as for the page. */
  function Upper(prop: PageProperties): PageProperties { prop.(writable := true) }

  /** vmm_map_page_impl over plain frames. */
  ghost function Map(s: Vm, r: int, q: seq<int>, page: int, prop: PageProperties): Vm
    requires |q| == 4
  {
    var s3 := Nest(s, r, q, Upper(prop));
    s3.(mem := Write(s3.mem, Cell(Leaf(s3, r, q), q[3]), Pte(true, page, prop)))
  }

  /** `s'` translates as `s` does, but for one page. */
  ghost predicate Updates(s: Vm, s': Vm, r: int, q: seq<int>, to: Option<int>) {
    && (forall r' :: IsRoot(s.own, r') <==> IsRoot(s'.own, r'))
    && (forall r', q' | IsRoot(s.own, r') && IsPage(q') ::
          TableAt(s'.mem, r', q') == if r' == r && q' == q then to else TableAt(s.mem, r', q'))
  }

  lemma LeafWrite(s: Vm, r: int, q: seq<int>, pdpt: int, pd: int, pt: int, e: Pte)
    requires Sound(s) && Chain(s, r, q, pdpt, pd, pt)
    ensures var s' := s.(mem := Write(s.mem, Cell(pt, q[3]), e));
            Sound(s') && Updates(s, s', r, q, if e.present then Some(e.frame) else None)
  {
    var s' := s.(mem := Write(s.mem, Cell(pt, q[3]), e));
    SetPageKeepsWF(s.mem, s.own, pt, q[3], e);
    PathParts(q);
    forall r', q' | IsRoot(s.own, r') && IsPage(q')
      ensures TableAt(s'.mem, r', q') == if r' == r && q' == q then (if e.present then Some(e.frame) else None)
        else TableAt(s.mem, r', q')
    {
      SetPage(s.mem, s.own, pt, q[3], e, r', q');
    }
  }

  /** Main result: mapping a page updates its translation and no other, in this or any other root; the
      tables still form a tree, and those that were there are still there. */
  lemma MapIsPointwise(s: Vm, r: int, q: seq<int>, page: int, prop: PageProperties)
    requires Callable(s, r, q)
    ensures var s' := Map(s, r, q, page, prop);
            Sound(s') && Extends(s, s') && Updates(s, s', r, q, Some(page))
  {
    var s3 := Nest(s, r, q, Upper(prop));
    NestKeeps(s, r, q, Upper(prop));
    LeafWrite(s3, r, q, Child(s3, r, q[0]), Child(s3, Child(s3, r, q[0]), q[1]), Leaf(s3, r, q), Pte(true, page, prop));
    forall r', q' | IsRoot(s.own, r') && IsPage(q')
      ensures IsRoot(s3.own, r') && TableAt(s3.mem, r', q') == TableAt(s.mem, r', q')
    {
    }
  }

  // ----- Unmapping ---------------------------------------------------------------------------------

  /** vmm_free_if_necessary_table over plain frames: if the table behind entry `i` of `f` is empty, its frame
      is given back and the entry cleared. */
  ghost function Prune(s: Vm, f: int, i: int): Vm {
    if IsEmpty(s.mem, Child(s, f, i)) then s.(mem := Clear(s.mem, f, i), own := s.own - {Child(s, f, i)}) else s
  }

  /** Every table but perhaps `x`, and but the roots, has an entry. */
  ghost predicate NoEmptyBut(s: Vm, x: int) {
    forall f | f in s.own && s.own[f].prefix != [] && f != x :: !IsEmpty(s.mem, f)
  }

  ghost predicate NoEmptyTable(s: Vm) {
    forall f | f in s.own && s.own[f].prefix != [] :: !IsEmpty(s.mem, f)
  }

  ghost predicate Shrinks(s: Vm, s': Vm) {
    s'.own.Keys <= s.own.Keys && forall f | f in s'.own :: s'.own[f] == s.own[f]
  }

  lemma PruneKeeps(s: Vm, f: int, i: int)
    requires Sound(s) && f in s.own && |s.own[f].prefix| < 3 && UserPath(s.own[f].prefix + [i])
    requires s.mem(Cell(f, i)).present
    ensures var s' := Prune(s, f, i);
            Sound(s') && SamePages(s, s') && Shrinks(s, s') && s'.own.Keys >= s.own.Keys - {Child(s, f, i)}
    ensures Child(s, f, i) in s.own && s.own[Child(s, f, i)] == Place(s.own[f].root, s.own[f].prefix + [i])
    ensures NoEmptyBut(s, Child(s, f, i)) ==> NoEmptyBut(Prune(s, f, i), f)
  {
    var s', g := Prune(s, f, i), Child(s, f, i);
    assert EntryOk(s.mem, s.own, f, i);
    if IsEmpty(s.mem, g) {
      PruneKeepsWF(s.mem, s.own, f, i, g);
      forall r, q | IsRoot(s.own, r) && IsPage(q) ensures TableAt(s'.mem, r, q) == TableAt(s.mem, r, q) {
        PruneKeepsPages(s.mem, s.own, f, i, g, r, q);
      }
      assert forall r :: IsRoot(s.own, r) <==> IsRoot(s'.own, r);
      PruneFills(s, f, i);
    }
  }

  lemma PruneFills(s: Vm, f: int, i: int)
    ensures NoEmptyBut(s, Child(s, f, i)) && IsEmpty(s.mem, Child(s, f, i)) ==> NoEmptyBut(Prune(s, f, i), f)
  {
    var s' := Prune(s, f, i);
    if NoEmptyBut(s, Child(s, f, i)) && IsEmpty(s.mem, Child(s, f, i)) {
      forall a | a in s'.own && s'.own[a].prefix != [] && a != f ensures !IsEmpty(s'.mem, a) {
        var j :| 0 <= j < 512 && s.mem(Cell(a, j)).present;
        assert s'.mem(Cell(a, j)).present;
      }
    }
  }

  lemma CreateFills(s: Vm, f: int, i: int, prop: PageProperties)
    requires FramesOk(s) && f in s.own && 0 <= i < 512 && NoEmptyBut(s, f)
    requires s.mem(Cell(f, i)).present || s.frames != []
    ensures NoEmptyBut(GetOrCreate(s, f, i, prop), Child(GetOrCreate(s, f, i, prop), f, i))
  {
    var s' := GetOrCreate(s, f, i, prop);
    var g := Child(s', f, i);
    if !s.mem(Cell(f, i)).present { NewIsEmpty(s, f, i, prop, 0); }
    forall a | a in s'.own && s'.own[a].prefix != [] && a != g ensures !IsEmpty(s'.mem, a) {
      if a == f {
        assert s'.mem(Cell(f, i)).present;
      } else {
        var j :| 0 <= j < 512 && s.mem(Cell(a, j)).present;
        CellKept(s, f, i, prop, Cell(a, j));
        assert s'.mem(Cell(a, j)).present;
      }
    }
  }

  lemma NestFills(s: Vm, r: int, q: seq<int>, prop: PageProperties)
    requires Callable(s, r, q) && NoEmptyTable(s)
    ensures NoEmptyBut(Nest(s, r, q, prop), Leaf(Nest(s, r, q, prop), r, q))
  {
    var s1, s2, s3 := Nest1(s, r, q, prop), Nest2(s, r, q, prop), Nest(s, r, q, prop);
    var pdpt, pd := Child(s1, r, q[0]), Child(s2, Child(s1, r, q[0]), q[1]);
    Nest1Keeps(s, r, q, prop);
    CreateFills(s, r, q[0], prop);
    Nest2Keeps(s1, r, q, prop);
    CreateFills(s1, pdpt, q[1], prop);
    Nest3Keeps(s2, r, q, prop, pdpt, pd);
    CreateFills(s2, pd, q[2], prop);
  }

  lemma MapFills(s: Vm, r: int, q: seq<int>, page: int, prop: PageProperties)
    requires Callable(s, r, q) && NoEmptyTable(s)
    ensures NoEmptyTable(Map(s, r, q, page, prop))
  {
    var s3, s' := Nest(s, r, q, Upper(prop)), Map(s, r, q, page, prop);
    NestFills(s, r, q, Upper(prop));
    var pt := Leaf(s3, r, q);
    forall a | a in s'.own && s'.own[a].prefix != [] ensures !IsEmpty(s'.mem, a) {
      if a == pt {
        assert s'.mem(Cell(pt, q[3])).present;
      } else {
        var j :| 0 <= j < 512 && s3.mem(Cell(a, j)).present;
        assert s'.mem(Cell(a, j)).present;
      }
    }
  }

  /** vmm_unmap_page_impl over plain frames. */
  ghost function Cleared(s: Vm, r: int, q: seq<int>): Vm
    requires |q| == 4
  {
    var s3 := Nest(s, r, q, PageKernelWrite);
    s3.(mem := Clear(s3.mem, Leaf(s3, r, q), q[3]))
  }

  ghost function PruneAll(s: Vm, r: int, q: seq<int>): Vm
    requires |q| == 4
  {
    var pdpt := Child(s, r, q[0]);
    var pd := Child(s, pdpt, q[1]);
    Prune(Prune(Prune(s, pd, q[2]), pdpt, q[1]), r, q[0])
  }

  ghost function Unmap(s: Vm, r: int, q: seq<int>): Vm
    requires |q| == 4
  {
    PruneAll(Cleared(s, r, q), r, q)
  }

  lemma ClearedKeeps(s: Vm, r: int, q: seq<int>)
    requires Callable(s, r, q)
    ensures var s4 := Cleared(s, r, q);
            && Sound(s4) && Extends(s, s4) && Updates(s, s4, r, q, None)
            && Chain(s4, r, q, Child(s4, r, q[0]), Child(s4, Child(s4, r, q[0]), q[1]), Leaf(s4, r, q))
    ensures NoEmptyTable(s) ==> NoEmptyBut(Cleared(s, r, q), Leaf(Cleared(s, r, q), r, q))
  {
    var s3, s4 := Nest(s, r, q, PageKernelWrite), Cleared(s, r, q);
    NestKeeps(s, r, q, PageKernelWrite);
    var pdpt, pd, pt := Child(s3, r, q[0]), Child(s3, Child(s3, r, q[0]), q[1]), Leaf(s3, r, q);
    LeafWrite(s3, r, q, pdpt, pd, pt, s3.mem(Cell(pt, q[3])).(present := false));
    forall r', q' | IsRoot(s.own, r') && IsPage(q')
      ensures IsRoot(s3.own, r') && TableAt(s3.mem, r', q') == TableAt(s.mem, r', q')
    {
    }
    ClearedChain(s3, s4, r, q, pdpt, pd, pt);
    if NoEmptyTable(s) {
      NestFills(s, r, q, PageKernelWrite);
      ClearedFills(s3, s4, pt, q[3]);
    }
  }

  lemma ClearedChain(s3: Vm, s4: Vm, r: int, q: seq<int>, pdpt: int, pd: int, pt: int)
    requires Chain(s3, r, q, pdpt, pd, pt) && s4 == s3.(mem := Clear(s3.mem, pt, q[3]))
    ensures Chain(s4, r, q, pdpt, pd, pt)
  {
    assert s3.own[pt].prefix != s3.own[pd].prefix && s3.own[pt].prefix != s3.own[pdpt].prefix;
  }

  lemma ClearedFills(s3: Vm, s4: Vm, pt: int, i: int)
    requires NoEmptyBut(s3, pt) && s4 == s3.(mem := Clear(s3.mem, pt, i))
    ensures NoEmptyBut(s4, pt)
  {
    forall a | a in s4.own && s4.own[a].prefix != [] && a != pt ensures !IsEmpty(s4.mem, a) {
      var j :| 0 <= j < 512 && s3.mem(Cell(a, j)).present;
      assert s4.mem(Cell(a, j)).present;
    }
  }

  lemma PruneAllKeeps(s: Vm, r: int, q: seq<int>, pdpt: int, pd: int, pt: int)
    requires Sound(s) && Chain(s, r, q, pdpt, pd, pt)
    ensures var s' := PruneAll(s, r, q);
            Sound(s') && SamePages(s, s') && Shrinks(s, s') && s'.own.Keys >= s.own.Keys - {pdpt, pd, pt}
    ensures NoEmptyBut(s, pt) ==> NoEmptyTable(PruneAll(s, r, q))
  {
    PathParts(q);
    var s5 := Prune(s, pd, q[2]);
    var s6 := Prune(s5, pdpt, q[1]);
    PruneKeeps(s, pd, q[2]);
    assert s5.mem(Cell(pdpt, q[1])) == s.mem(Cell(pdpt, q[1])) && s5.mem(Cell(r, q[0])) == s.mem(Cell(r, q[0]));
    PruneKeeps(s5, pdpt, q[1]);
    assert s6.mem(Cell(r, q[0])) == s.mem(Cell(r, q[0]));
    PruneKeeps(s6, r, q[0]);
  }

  /** Main result: unmapping a page removes its translation and no other. */
  lemma UnmapIsPointwise(s: Vm, r: int, q: seq<int>)
    requires Callable(s, r, q)
    ensures Sound(Unmap(s, r, q)) && Updates(s, Unmap(s, r, q), r, q, None)
    ensures NoEmptyTable(s) ==> NoEmptyTable(Unmap(s, r, q))
  {
    var s4, s' := Cleared(s, r, q), Unmap(s, r, q);
    ClearedKeeps(s, r, q);
    PruneAllKeeps(s4, r, q, Child(s4, r, q[0]), Child(s4, Child(s4, r, q[0]), q[1]), Leaf(s4, r, q));
    forall r', q' | IsRoot(s.own, r') && IsPage(q')
      ensures TableAt(s'.mem, r', q') == if r' == r && q' == q then None else TableAt(s.mem, r', q')
    {
      assert IsRoot(s4.own, r');
    }
  }

  // ----- Which tables there are --------------------------------------------------------------------

  ghost predicate Leads(m: Memory, r: int, p: seq<int>, q: seq<int>) {
    IsPage(q) && p <= q && TableAt(m, r, q).Some?
  }

  lemma {:induction false} TableHasPage(s: Vm, f: int)
    requires Sound(s) && NoEmptyTable(s) && f in s.own && s.own[f].prefix != []
    ensures exists q :: Leads(s.mem, s.own[f].root, s.own[f].prefix, q)
    decreases 3 - |s.own[f].prefix|
  {
    assert TableOk(s.mem, s.own, f);
    var r, p := s.own[f].root, s.own[f].prefix;
    var i :| 0 <= i < 512 && s.mem(Cell(f, i)).present;
    var below := p + [i];
    assert below[..|p|] == p;
    assert UserPath(below);
    assert TableAt(s.mem, r, below) == Some(Child(s, f, i));
    if |p| == 3 {
      assert Leads(s.mem, r, p, below);
    } else {
      assert EntryOk(s.mem, s.own, f, i);
      TableHasPage(s, Child(s, f, i));
      var q :| Leads(s.mem, r, below, q);
      assert p <= below;
      assert Leads(s.mem, r, p, q);
    }
  }

  lemma {:induction false} PageHasTables(m: Memory, r: int, p: seq<int>, q: seq<int>)
    requires Leads(m, r, p, q)
    ensures TableAt(m, r, p).Some?
  {
    if TableAt(m, r, p) == None { NothingBelow(m, r, p, q); }
  }

  /** Main result: when no table is empty there is a table at a place exactly if a mapped page lies below it.
      Since mapping and unmapping keep that no table is empty, unmapping frees exactly the tables that lost
      their last page. */
  lemma TablesFollowPages(s: Vm, r: int, p: seq<int>)
    requires Sound(s) && NoEmptyTable(s) && IsRoot(s.own, r) && UserPath(p) && 1 <= |p| <= 3
    ensures (exists f :: f in s.own && s.own[f] == Place(r, p)) <==> (exists q :: Leads(s.mem, r, p, q))
  {
    if exists f :: f in s.own && s.own[f] == Place(r, p) {
      var f :| f in s.own && s.own[f] == Place(r, p);
      TableHasPage(s, f);
    }
    if exists q :: Leads(s.mem, r, p, q) {
      var q :| Leads(s.mem, r, p, q);
      PageHasTables(s.mem, r, p, q);
      WalkOwned(s.mem, s.own, r, p);
    }
  }

  /** `s` is part of the tree of `t`. */
  ghost predicate Within(s: Vm, t: Vm) { Shrinks(t, s) && forall r :: IsRoot(s.own, r) <==> IsRoot(t.own, r) }

  lemma SubsetOfTables(s: Vm, s': Vm, t: Vm)
    requires Sound(s) && Sound(s') && Sound(t) && NoEmptyTable(s) && NoEmptyTable(s')
    requires SamePages(s, s') && Within(s, t) && Within(s', t)
    ensures s.own.Keys <= s'.own.Keys
  {
    forall f | f in s.own ensures f in s'.own {
      var r, p := s.own[f].root, s.own[f].prefix;
      assert TableOk(s.mem, s.own, f) && TableOk(t.mem, t.own, f);
      assert IsRoot(s.own, r) && IsRoot(t.own, r) && IsRoot(s'.own, r);
      if p != [] {
        TableHasPage(s, f);
        var q :| Leads(s.mem, r, p, q);
        assert Leads(s'.mem, r, p, q);
        PageHasTables(s'.mem, r, p, q);
        WalkOwned(s'.mem, s'.own, r, p);
        var f' := TableAt(s'.mem, r, p).value;
        assert TableOk(t.mem, t.own, f');
      }
    }
  }

  lemma SameTables(s: Vm, s': Vm, t: Vm)
    requires Sound(s) && Sound(s') && Sound(t) && NoEmptyTable(s) && NoEmptyTable(s')
    requires SamePages(s, s') && Within(s, t) && Within(s', t)
    ensures s'.own == s.own
  {
    SubsetOfTables(s, s', t);
    assert SamePages(s', s);
    SubsetOfTables(s', s, t);
    assert s'.own.Keys == s.own.Keys;
    assert forall f | f in s.own :: s'.own[f] == s.own[f];
  }

  lemma UnmapWithin(s: Vm, r: int, q: seq<int>)
    requires Callable(s, r, q)
    ensures Sound(Cleared(s, r, q)) && Within(Unmap(s, r, q), Cleared(s, r, q)) && Within(s, Cleared(s, r, q))
  {
    var s4 := Cleared(s, r, q);
    ClearedKeeps(s, r, q);
    PruneAllKeeps(s4, r, q, Child(s4, r, q[0]), Child(s4, Child(s4, r, q[0]), q[1]), Leaf(s4, r, q));
  }

  /** Main result: unmapping a page that is not mapped changes no translation and leaves exactly the tables
      there were. */
  lemma UnmapUnmapped(s: Vm, r: int, q: seq<int>)
    requires Callable(s, r, q) && NoEmptyTable(s) && TableAt(s.mem, r, q) == None
    ensures SamePages(s, Unmap(s, r, q)) && Unmap(s, r, q).own == s.own
  {
    UnmapIsPointwise(s, r, q);
    UnmapWithin(s, r, q);
    SameTables(s, Unmap(s, r, q), Cleared(s, r, q));
  }

  /** Main result: unmapping a page just mapped restores every translation and exactly the tables there were. */
  lemma UnmapUndoesMap(s: Vm, r: int, q: seq<int>, page: int, prop: PageProperties)
    requires Callable(s, r, q) && NoEmptyTable(s) && TableAt(s.mem, r, q) == None
    ensures var s1 := Map(s, r, q, page, prop);
            && Callable(s1, r, q)
            && SamePages(s, Unmap(s1, r, q)) && Unmap(s1, r, q).own == s.own
  {
    var s1 := Map(s, r, q, page, prop);
    MapIsPointwise(s, r, q, page, prop);
    MapFills(s, r, q, page, prop);
    MapHasAll(s, r, q, page, prop);
    var s2, t := Unmap(s1, r, q), Cleared(s1, r, q);
    UnmapIsPointwise(s1, r, q);
    UnmapWithin(s1, r, q);
    forall r', q' | IsRoot(s.own, r') && IsPage(q') ensures TableAt(s2.mem, r', q') == TableAt(s.mem, r', q') {
      assert IsRoot(s1.own, r');
    }
    SameTables(s, s2, t);
  }

  lemma MapHasAll(s: Vm, r: int, q: seq<int>, page: int, prop: PageProperties)
    requires Callable(s, r, q)
    ensures IsRoot(Map(s, r, q, page, prop).own, r) && Missing(Map(s, r, q, page, prop).mem, r, q) == 0
  {
    var s3 := Nest(s, r, q, Upper(prop));
    NestKeeps(s, r, q, Upper(prop));
  }
}
